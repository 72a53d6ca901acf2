/** Arrivals and completions consumed into closed one-minute windows. */
module Windows {
  import opened Common
  import opened Health

  datatype RequestRecord = RequestRecord(requestId: string, arrivalTs: int, ip: string, verb: string,
                                         routeTemplate: string, completedTs: Option<int>)

  datatype Flags = Flags(decision: string, fired: seq<string>)

  /** One decoded stream entry. */
  datatype Entry =
    | Arrival(record: RequestRecord)
    | Completion(record: RequestRecord, flags: Flags)
    | Heartbeat(beat: Beat)
    | Malformed

  type Records = map<string, RequestRecord>

  datatype State = State(arrivals: Records, completions: Records, flags: map<string, Flags>, health: seq<Beat>) {
    /** What is known of each request; a completion says more than an arrival. */
    function All(): Records { arrivals + completions }
  }

  function Consumed(s: State, e: Entry): State {
    match e
    case Heartbeat(beat) => s.(health := s.health + [beat])
    case Arrival(record) => s.(arrivals := s.arrivals[record.requestId := record])
    case Completion(record, flags) =>
      var id := record.requestId;
      var known := if id in s.arrivals then s.arrivals[id].(completedTs := record.completedTs) else record;
      s.(completions := s.completions[id := known], flags := s.flags[id := flags])
    case Malformed => s
  }

  function ConsumedAll(s: State, entries: seq<Entry>): State {
    if entries == [] then s else Consumed(ConsumedAll(s, entries[..|entries| - 1]), entries[|entries| - 1])
  }

  datatype WindowKey = WindowKey(ip: string, start: int)

  type Route = (string, string)

  function KeyOf(r: RequestRecord): WindowKey { WindowKey(r.ip, WindowStart(r.arrivalTs)) }

  function RouteOf(r: RequestRecord): Route { (r.verb, r.routeTemplate) }

  /** The minutes that are over, grace included, among those some request belongs to. */
  function ReadyStarts(all: Records, grace: int, now: int): set<int> {
    set id | id in all && WindowEnd(WindowStart(all[id].arrivalTs)) + grace <= now :: WindowStart(all[id].arrivalTs)
  }

  function ReadyIds(all: Records, ready: set<int>): set<string> {
    set id | id in all && WindowStart(all[id].arrivalTs) in ready
  }

  function Members(all: Records, ready: set<int>, key: WindowKey): set<string> {
    set id | id in ReadyIds(all, ready) && KeyOf(all[id]) == key
  }

  function RouteCounts(members: set<string>, all: Records): map<Route, nat>
    requires members <= all.Keys
  {
    map r | r in RoutesOf(members, all) :: |OnRoute(members, all, r)|
  }

  function RoutesOf(members: set<string>, all: Records): set<Route>
    requires members <= all.Keys
  {
    set id | id in members :: RouteOf(all[id])
  }

  function OnRoute(members: set<string>, all: Records, r: Route): set<string>
    requires members <= all.Keys
  {
    set id | id in members && RouteOf(all[id]) == r
  }

  function FiredBy(members: set<string>, flags: map<string, Flags>): set<string> {
    set id, signal | id in members && id in flags && signal in flags[id].fired :: signal
  }

  function DecisionFor(id: string, flags: map<string, Flags>): string {
    if id in flags then flags[id].decision else ""
  }

  predicate AllAllowed(members: set<string>, flags: map<string, Flags>) {
    forall id :: id in members ==> DecisionFor(id, flags) == "allow"
  }

  datatype CompletedWindow = CompletedWindow(key: WindowKey, routeCounts: map<Route, nat>, safeToLearn: bool,
                                             fired: set<string>)

  function WindowOf(s: State, ready: set<int>, key: WindowKey): CompletedWindow {
    var members := Members(s.All(), ready, key);
    CompletedWindow(key, RouteCounts(members, s.All()),
                    && members <= s.completions.Keys && AllAllowed(members, s.flags) && FiredBy(members, s.flags) == {}
                    && FullyObserved(BeatsIn(s.health, key.start)),
                    FiredBy(members, s.flags))
  }

  function Keys(all: Records, ready: set<int>): set<WindowKey> {
    set id | id in ReadyIds(all, ready) :: KeyOf(all[id])
  }

  /** Closed minutes are forgotten: their requests, their flags and their heartbeats. */
  function Closed(s: State, ready: set<int>): State {
    var gone := ReadyIds(s.All(), ready);
    State(s.arrivals - gone, s.completions - gone, s.flags - gone, Unclosed(s.health, ready))
  }

  function Unclosed(beats: seq<Beat>, ready: set<int>): seq<Beat> {
    if beats == [] then []
    else
      var last := beats[|beats| - 1];
      Unclosed(beats[..|beats| - 1], ready)
        + (if last.at.Some? && WindowStart(last.at.value) !in ready then [last] else [])
  }

  function AfterClose(s: State, grace: int, now: int): State {
    var ready := ReadyStarts(s.All(), grace, now);
    if ready == {} then s else Closed(s, ready)
  }

  /** One window per address and closed minute. */
  ghost predicate WindowsOf(finished: seq<CompletedWindow>, s: State, ready: set<int>) {
    && (forall i, j :: 0 <= i < j < |finished| ==> finished[i].key != finished[j].key)
    && (forall i :: 0 <= i < |finished| ==>
        finished[i].key in Keys(s.All(), ready) && finished[i] == WindowOf(s, ready, finished[i].key))
    && (forall k :: k in Keys(s.All(), ready) ==> exists i :: 0 <= i < |finished| && finished[i].key == k)
  }

  class WindowConsumer {
    const grace: int
    var arrivals: Records
    var completions: Records
    var flags: map<string, Flags>
    var health: seq<Beat>

    constructor (grace: int)
      ensures this.grace == Max(0, grace) && View() == State(map[], map[], map[], [])
    {
      this.grace := Max(0, grace);
      arrivals, completions, flags, health := map[], map[], map[], [];
    }

    function View(): State
      reads this
    {
      State(arrivals, completions, flags, health)
    }

    method Consume(entries: seq<Entry>)
      modifies this
      ensures View() == ConsumedAll(old(View()), entries)
    {
      for i := 0 to |entries|
        invariant View() == ConsumedAll(old(View()), entries[..i])
      {
        assert entries[..i + 1][..i] == entries[..i];
        match entries[i]
        case Heartbeat(beat) => health := health + [beat];
        case Arrival(record) => arrivals := arrivals[record.requestId := record];
        case Malformed =>
        case Completion(record, f) =>
          var known := record;
          if record.requestId in arrivals {
            known := arrivals[record.requestId].(completedTs := record.completedTs);
          }
          completions := completions[record.requestId := known];
          flags := flags[record.requestId := f];
      }
      assert entries[..|entries|] == entries;
    }

    /** Closes the minutes that are over. While the streams have not been read to their end, nothing is closed. */
    method Completed(now: int, caughtUp: bool) returns (finished: seq<CompletedWindow>)
      modifies this
      ensures !caughtUp ==> finished == [] && View() == old(View())
      ensures caughtUp ==>
        && WindowsOf(finished, old(View()), ReadyStarts(old(View()).All(), grace, now))
        && View() == AfterClose(old(View()), grace, now)
    {
      if !caughtUp {
        return [];
      }
      var records := arrivals + completions;
      var ready := ReadyStarts(records, grace, now);
      if ready == {} {
        return [];
      }
      finished := CloseWindows(View(), ready);
      var gone := ReadyIds(records, ready);
      arrivals, completions, flags := arrivals - gone, completions - gone, flags - gone;
      health := KeepUnclosed(health, ready);
    }
  }

  method KeepUnclosed(beats: seq<Beat>, ready: set<int>) returns (kept: seq<Beat>)
    ensures kept == Unclosed(beats, ready)
  {
    kept := [];
    for i := 0 to |beats|
      invariant kept == Unclosed(beats[..i], ready)
    {
      assert beats[..i + 1][..i] == beats[..i];
      if beats[i].at.Some? && WindowStart(beats[i].at.value) !in ready {
        kept := kept + [beats[i]];
      }
    }
    assert beats[..|beats|] == beats;
  }

  /** Groups the ready requests by address and minute, and summarises every group. */
  method CloseWindows(s: State, ready: set<int>) returns (finished: seq<CompletedWindow>)
    ensures WindowsOf(finished, s, ready)
  {
    hide WindowOf, Keys;
    finished := [];
    var grouped := Keys(s.All(), ready);
    var todo := grouped;
    while todo != {}
      invariant todo <= grouped
      invariant forall i, j :: 0 <= i < j < |finished| ==> finished[i].key != finished[j].key
      invariant forall i :: 0 <= i < |finished| ==>
        finished[i].key in grouped && finished[i].key !in todo && finished[i] == WindowOf(s, ready, finished[i].key)
      invariant forall k :: k in grouped && k !in todo ==> exists i :: 0 <= i < |finished| && finished[i].key == k
      decreases todo
    {
      var key :| key in todo;
      var window := CloseWindow(s, ready, key);
      ghost var before := finished;
      finished := finished + [window];
      todo := todo - {key};
      forall k | k in grouped && k !in todo ensures exists i :: 0 <= i < |finished| && finished[i].key == k {
        if k == key {
          assert finished[|before|].key == k;
        } else {
          var i :| 0 <= i < |before| && before[i].key == k;
          assert finished[i].key == k;
        }
      }
    }
  }

  method CloseWindow(s: State, ready: set<int>, key: WindowKey) returns (window: CompletedWindow)
    ensures window == WindowOf(s, ready, key) && window.key == key
  {
    hide BeatsIn, FullyObserved, RouteCounts, FiredBy, AllAllowed;
    SummaryOfNone(s.All(), s.flags);
    var all := s.All();
    var members := Members(all, ready, key);
    var counts: map<Route, nat> := map[];
    var fired: set<string> := {};
    var completed, allowed := true, true;
    var todo, done: set<string> := members, {};
    while todo != {}
      invariant done !! todo && done + todo == members
      invariant counts == RouteCounts(done, all)
      invariant fired == FiredBy(done, s.flags)
      invariant completed == (done <= s.completions.Keys)
      invariant allowed == AllAllowed(done, s.flags)
      decreases todo
    {
      var id :| id in todo;
      CountOneMore(done, id, all);
      var route := RouteOf(all[id]);
      counts := counts[route := (if route in counts then counts[route] else 0) + 1];
      FiredOneMore(done, id, s.flags);
      AllowedOneMore(done, id, s.flags);
      fired := fired + (if id in s.flags then set signal | signal in s.flags[id].fired else {});
      completed := completed && id in s.completions;
      allowed := allowed && DecisionFor(id, s.flags) == "allow";
      done, todo := done + {id}, todo - {id};
    }
    assert done == members;
    window := CompletedWindow(key, counts, completed && allowed && fired == {}
                              && FullyObserved(BeatsIn(s.health, key.start)), fired);
  }

  lemma SummaryOfNone(all: Records, flags: map<string, Flags>)
    ensures RouteCounts({}, all) == map[] && FiredBy({}, flags) == {} && AllAllowed({}, flags)
  {
  }

  lemma AllowedOneMore(done: set<string>, id: string, flags: map<string, Flags>)
    ensures AllAllowed(done + {id}, flags) <==> AllAllowed(done, flags) && DecisionFor(id, flags) == "allow"
  {
  }

  lemma OnRouteOneMore(done: set<string>, id: string, all: Records, r: Route)
    requires done <= all.Keys && id in all && id !in done
    ensures |OnRoute(done + {id}, all, r)| == |OnRoute(done, all, r)| + (if r == RouteOf(all[id]) then 1 else 0)
    ensures r !in RoutesOf(done, all) ==> OnRoute(done, all, r) == {}
  {
    if r == RouteOf(all[id]) {
      assert OnRoute(done + {id}, all, r) == OnRoute(done, all, r) + {id};
    } else {
      assert OnRoute(done + {id}, all, r) == OnRoute(done, all, r);
    }
  }

  lemma CountOneMore(done: set<string>, id: string, all: Records)
    requires done <= all.Keys && id in all && id !in done
    ensures var route := RouteOf(all[id]);
            RouteCounts(done + {id}, all) ==
            RouteCounts(done,
                all)[route := (if route in RouteCounts(done, all) then RouteCounts(done, all)[route] else 0) + 1]
  {
    var route := RouteOf(all[id]);
    assert RoutesOf(done + {id}, all) == RoutesOf(done, all) + {route};
    hide RoutesOf, OnRoute;
    forall r ensures |OnRoute(done + {id}, all, r)| == |OnRoute(done, all, r)| + (if r == route then 1 else 0) {
      OnRouteOneMore(done, id, all, r);
    }
    OnRouteOneMore(done, id, all, route);
  }

  lemma FiredOneMore(done: set<string>, id: string, flags: map<string, Flags>)
    ensures FiredBy(done + {id}, flags) == FiredBy(done, flags)
            + (if id in flags then set signal | signal in flags[id].fired else {})
  {
  }
}
