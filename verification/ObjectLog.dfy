/** The trails against the history of requests they were built from. */
module ObjectLog {
  import opened Common
  import opened Eviction
  import opened ObjectEnumeration

  /** One call of the detector, with the settings in force when it was made. */
  datatype Op =
    | Observe(ip: string, key: string, id: string, denied: bool, now: int, tun: Tunables)
    | Read(ip: string, now: int, tun: Tunables)
    | Sweep(now: int, tun: Tunables)

  ghost predicate Step(s: Clients, op: Op, s': Clients) {
    match op
    case Observe(ip, key, id, denied, now, tun) =>
      exists roomy :: RoomFor(s, ip, tun, roomy) && s' == Noted(roomy, ip, key, id, denied, now, tun)
    case Read(ip, now, tun) => s' == AfterRead(s, ip, now, tun)
    case Sweep(now, tun) => s' == AfterSweep(s, now, tun.window)
  }

  ghost predicate History(log: seq<Op>, states: seq<Clients>) {
    && |states| == |log| + 1 && states[0] == map[]
    && forall i :: 0 <= i < |log| ==> Step(states[i], log[i], states[i + 1])
  }

  predicate Requests(op: Op, ip: string, key: string, id: string) {
    op.Observe? && op.ip == ip && op.key == key && op.id == id
  }

  /** The last request for an object: what the log alone says. */
  function LastRequest(log: seq<Op>, ip: string, key: string, id: string): Option<Lookup> {
    if log == [] then None
    else
      var op := log[|log| - 1];
      if Requests(op, ip, key, id) then Some(Lookup(op.now, op.denied)) else LastRequest(log[..|log| - 1], ip, key, id)
  }

  function TrailAt(s: Clients, ip: string, key: string): Trail { TrailOf(ClientOf(s, ip), key) }

  /** Every identifier on a trail is there with its last request. */
  ghost predicate Faithful(s: Clients, log: seq<Op>) {
    forall ip, key, id :: id in TrailAt(s, ip, key) ==> LastRequest(log, ip, key, id) == Some(TrailAt(s, ip, key)[id])
  }

  /** Every trail of r is part of the same trail of s. */
  ghost predicate Within(r: Clients, s: Clients) {
    forall ip, key, id :: id in TrailAt(r, ip, key) ==>
      id in TrailAt(s, ip, key) && TrailAt(r, ip, key)[id] == TrailAt(s, ip, key)[id]
  }

  lemma RoomWithin(s: Clients, ip: string, tun: Tunables, roomy: Clients)
    requires RoomFor(s, ip, tun, roomy)
    ensures Within(roomy, s)
  {
  }

  lemma QuietWithin(s: Clients, op: Op, s': Clients)
    requires !op.Observe? && Step(s, op, s')
    ensures Within(s', s)
  {
  }

  lemma TrailAfterNoted(roomy: Clients, op: Op, ip: string, key: string)
    requires op.Observe?
    ensures var after := Noted(roomy, op.ip, op.key, op.id, op.denied, op.now, op.tun);
            TrailAt(after, ip, key) ==
            if ip == op.ip && key == op.key then Walked(TrailAt(roomy, ip, key), op.id, op.denied, op.now, op.tun)
            else TrailAt(roomy, ip, key)
  {
    hide Walked;
  }

  lemma StepFaithful(s: Clients, op: Op, s': Clients, log: seq<Op>)
    requires Faithful(s, log) && Step(s, op, s')
    ensures Faithful(s', log + [op])
  {
    assert (log + [op])[..|log|] == log;
    if op.Observe? {
      var roomy :| RoomFor(s, op.ip, op.tun, roomy)
        && s' == Noted(roomy, op.ip, op.key, op.id, op.denied, op.now, op.tun);
      RoomWithin(s, op.ip, op.tun, roomy);
      hide RoomFor, Noted, TrailAt;
      forall ip, key, id | id in TrailAt(s', ip, key)
        ensures LastRequest(log + [op], ip, key, id) == Some(TrailAt(s', ip, key)[id])
      {
        TrailAfterNoted(roomy, op, ip, key);
      }
    } else {
      QuietWithin(s, op, s');
      hide TrailAt, Step;
    }
  }

  lemma {:induction false} HistoryIsFaithful(log: seq<Op>, states: seq<Clients>)
    requires History(log, states)
    ensures Faithful(states[|log|], log)
  {
    hide Step, Faithful;
    if log == [] {
      NobodySeen();
    } else {
      var n := |log| - 1;
      HistoryIsFaithful(log[..n], states[..n + 1]);
      assert log == log[..n] + [log[n]];
      StepFaithful(states[n], log[n], states[n + 1], log[..n]);
    }
  }

  lemma NobodySeen()
    ensures Faithful(map[], [])
  {
  }

  /** What a reading sees is part of what was requested within the window, each identifier as it was last requested;
      this holds whatever was evicted, capped, swept or reconfigured. */
  lemma SeesOnlyTheWindow(log: seq<Op>, states: seq<Clients>, ip: string, key: string, now: int, tun: Tunables,
                          id: string)
    requires History(log, states) && tun.enabled
    requires id in TrailAt(AfterRead(states[|log|], ip, now, tun), ip, key)
    ensures var last := LastRequest(log, ip, key, id);
            last.Some? && last.value.at > now - tun.window
              && last.value == TrailAt(AfterRead(states[|log|], ip, now, tun), ip, key)[id]
  {
    HistoryIsFaithful(log, states);
    hide Step, LastRequest;
    assert id in TrailAt(states[|log|], ip, key);
  }

  // ---- What the log remembers -------------------------------------------

  /** When the detector last heard of a client. */
  function LastHeard(log: seq<Op>, ip: string): int {
    if log == [] then 0
    else
      var op := log[|log| - 1];
      if (op.Observe? && op.ip == ip) || (op.Read? && op.ip == ip && op.tun.enabled) then op.now
      else LastHeard(log[..|log| - 1], ip)
  }

  function Late(r: Option<Lookup>, cutoff: int): Option<Lookup> { if r.Some? && r.value.at > cutoff then r else None }

  /** A request on the trail, a reading of the client or a sweep forgets what has left the window then in force; a sweep
      forgets all of a client that was not heard of for so long. */
  function Remembered(log: seq<Op>, ip: string, key: string, id: string): Option<Lookup> {
    if log == [] then None
    else
      var front, op := log[..|log| - 1], log[|log| - 1];
      RememberedAfter(Remembered(front, ip, key, id), op, ip, key, id, LastHeard(front, ip))
  }

  function RememberedAfter(r: Option<Lookup>, op: Op, ip: string, key: string, id: string, heard: int): Option<Lookup> {
    var cutoff := op.now - op.tun.window;
    match op
    case Observe(c, k, i, denied, now, _) =>
      if c != ip || k != key then r else if i == id then Some(Lookup(now, denied)) else Late(r, cutoff)
    case Read(c, _, tun) => if c == ip && tun.enabled then Late(r, cutoff) else r
    case Sweep(now, tun) => if now - heard > tun.window then None else Late(r, cutoff)
  }

  lemma RememberedStep(log: seq<Op>, op: Op, ip: string, key: string, id: string)
    ensures Remembered(log + [op], ip, key, id) ==
            RememberedAfter(Remembered(log, ip, key, id), op, ip, key, id, LastHeard(log, ip))
    ensures LastHeard(log + [op], ip) ==
            if (op.Observe? && op.ip == ip) || (op.Read? && op.ip == ip && op.tun.enabled) then op.now
            else LastHeard(log, ip)
  {
    assert (log + [op])[..|log|] == log;
  }

  /** What is remembered of an identifier is its last request. */
  lemma {:induction false} RememberedIsLast(log: seq<Op>, ip: string, key: string, id: string)
    ensures Remembered(log, ip, key, id).Some? ==> Remembered(log, ip, key, id) == LastRequest(log, ip, key, id)
  {
    if log != [] {
      RememberedIsLast(log[..|log| - 1], ip, key, id);
    }
  }

  /** Neither the table nor the trail is full when something new comes. */
  predicate Unhindered(s: Clients, op: Op) {
    op.Observe? ==>
      && (op.ip in s || |s| < op.tun.maxClients)
      && (var kept := Pruned(TrailAt(s, op.ip, op.key), op.now - op.tun.window);
          op.id in kept || |kept| < op.tun.maxIdsPerClient)
  }

  /** Then every trail changes by itself. */
  function TrailAfter(trail: Trail, op: Op, ip: string, key: string, heard: int): Trail {
    match op
    case Observe(c, k, id, denied, now, tun) =>
      if c == ip && k == key then Pruned(trail, now - tun.window)[id := Lookup(now, denied)] else trail
    case Read(c, now, tun) => if c == ip && tun.enabled then Pruned(trail, now - tun.window) else trail
    case Sweep(now, tun) => if now - heard > tun.window then map[] else Pruned(trail, now - tun.window)
  }

  /** Clients in the table carry the time at which they were last heard of. */
  ghost predicate HeardOk(s: Clients, log: seq<Op>) {
    forall ip :: ip in s ==> s[ip].lastSeen == LastHeard(log, ip)
  }

  lemma HeardStep(s: Clients, op: Op, s': Clients, log: seq<Op>)
    requires HeardOk(s, log) && Step(s, op, s') && Unhindered(s, op)
    ensures HeardOk(s', log + [op])
  {
    assert (log + [op])[..|log|] == log;
    hide Pruned, Stays;
  }

  lemma TrailStep(s: Clients, op: Op, s': Clients, ip: string, key: string, heard: int)
    requires Step(s, op, s') && Unhindered(s, op) && (ip in s ==> s[ip].lastSeen == heard)
    ensures TrailAt(s', ip, key) == TrailAfter(TrailAt(s, ip, key), op, ip, key, heard)
  {
    NothingPruned(op.now - op.tun.window);
    hide Pruned;
    match op
    case Observe(_, _, _, _, _, _) => TrailAfterNoted(s, op, ip, key);
    case Read(_, _, _) =>
    case Sweep(now, tun) =>
      if ip in s {
        SweptTrail(s[ip], key, now, tun.window);
      }
  }

  lemma NothingPruned(cutoff: int)
    ensures Pruned(map[], cutoff) == map[]
  {
  }

  lemma SweptTrail(c: Client, key: string, now: int, window: int)
    ensures var swept := if Stays(c, now, window) then TrailOf(c.(trails := SweptTrails(c, now, window)), key)
            else map[];
            swept == if now - c.lastSeen > window then map[] else Pruned(TrailOf(c, key), now - window)
  {
    NothingPruned(now - window);
    hide Pruned;
    var kept := Pruned(TrailOf(c, key), now - window);
    if now - c.lastSeen <= window && kept != map[] {
      assert |kept| > 0;
      assert key in SweptTrails(c, now, window).Keys;
    }
  }

  ghost predicate OnTrail(trail: Trail, id: string, r: Option<Lookup>) {
    if r.None? then id !in trail else id in trail && trail[id] == r.value
  }

  lemma OnTrailStep(trail: Trail, op: Op, ip: string, key: string, id: string, heard: int, r: Option<Lookup>)
    requires OnTrail(trail, id, r)
    ensures OnTrail(TrailAfter(trail, op, ip, key, heard), id, RememberedAfter(r, op, ip, key, id, heard))
  {
  }

  /** The trails hold exactly what the log remembers. */
  ghost predicate Mirrors(s: Clients, log: seq<Op>) {
    forall ip, key, id :: OnTrail(TrailAt(s, ip, key), id, Remembered(log, ip, key, id))
  }

  ghost predicate NothingFull(log: seq<Op>, states: seq<Clients>)
    requires |states| == |log| + 1
  {
    forall i :: 0 <= i < |log| ==> Unhindered(states[i], log[i])
  }

  lemma MirrorsStep(s: Clients, op: Op, s': Clients, log: seq<Op>)
    requires Mirrors(s, log) && HeardOk(s, log) && Step(s, op, s') && Unhindered(s, op)
    ensures Mirrors(s', log + [op])
  {
    hide Step, Unhindered, TrailAt, OnTrail, Remembered, RememberedAfter, TrailAfter, LastHeard;
    forall ip, key, id ensures OnTrail(TrailAt(s', ip, key), id, Remembered(log + [op], ip, key, id)) {
      TrailStep(s, op, s', ip, key, LastHeard(log, ip));
      RememberedStep(log, op, ip, key, id);
      OnTrailStep(TrailAt(s, ip, key), op, ip, key, id, LastHeard(log, ip), Remembered(log, ip, key, id));
    }
  }

  /** In every history in which nothing is ever full, whatever the clock and the windows do, the table is the fold of
      the log. */
  lemma {:induction false} TableIsFold(log: seq<Op>, states: seq<Clients>)
    requires History(log, states) && NothingFull(log, states)
    ensures Mirrors(states[|log|], log) && HeardOk(states[|log|], log)
  {
    hide Step, Unhindered, Mirrors, HeardOk;
    if log == [] {
      NothingMirrored();
    } else {
      var n := |log| - 1;
      TableIsFold(log[..n], states[..n + 1]);
      assert log == log[..n] + [log[n]] && Step(states[n], log[n], states[n + 1]) && Unhindered(states[n], log[n]);
      MirrorsStep(states[n], log[n], states[n + 1], log[..n]);
      HeardStep(states[n], log[n], states[n + 1], log[..n]);
    }
  }

  lemma NothingMirrored()
    ensures Mirrors(map[], []) && HeardOk(map[], [])
  {
  }

  predicate InWindow(r: Option<Lookup>, now: int, window: int) { r.Some? && r.value.at > now - window }

  /** While nothing is ever full, a reading sees exactly what the log remembers within the window; and that is what was
      requested within the window if and only if it was not forgotten along the log. */
  lemma SeesTheWholeWindow(log: seq<Op>, states: seq<Clients>, ip: string, key: string, now: int, tun: Tunables,
                           id: string)
    requires History(log, states) && NothingFull(log, states) && tun.enabled
    ensures var seen := id in TrailAt(AfterRead(states[|log|], ip, now, tun), ip, key);
            var last := LastRequest(log, ip, key, id);
            && (seen <==> InWindow(Remembered(log, ip, key, id), now, tun.window))
            && ((seen <==> InWindow(last, now, tun.window)) <==>
                (InWindow(last, now, tun.window) ==> Remembered(log, ip, key, id) == last))
  {
    TableIsFold(log, states);
    RememberedIsLast(log, ip, key, id);
    hide Step, LastRequest, Remembered, History, NothingFull;
    var s := states[|log|];
    assert OnTrail(TrailAt(s, ip, key), id, Remembered(log, ip, key, id));
    KeptIfLate(TrailAt(s, ip, key), now - tun.window, id);
    NothingPruned(now - tun.window);
    hide Pruned;
  }

  function Clock(log: seq<Op>): int { if log == [] then 0 else log[|log| - 1].now }

  /** The clock does not go back, and no call used a window shorter than this one. */
  ghost predicate Steady(log: seq<Op>, window: int) {
    log == [] || (
      var front, op := log[..|log| - 1], log[|log| - 1];
      Steady(front, window) && Clock(front) <= op.now && op.tun.window >= window)
  }

  /** Such a log forgets nothing that was requested within the window. */
  lemma {:induction false} SteadyRemembers(log: seq<Op>, ip: string, key: string, id: string, now: int, window: int)
    requires Steady(log, window) && Clock(log) <= now && InWindow(LastRequest(log, ip, key, id), now, window)
    ensures Remembered(log, ip, key, id) == LastRequest(log, ip, key, id)
    ensures LastRequest(log, ip, key, id).value.at <= LastHeard(log, ip) <= Clock(log)
  {
    var front, op := log[..|log| - 1], log[|log| - 1];
    if !Requests(op, ip, key, id) {
      SteadyRemembers(front, ip, key, id, now, window);
    }
  }

  lemma KeptIfLate(trail: Trail, cutoff: int, id: string)
    ensures id in Pruned(trail, cutoff) <==> id in trail && trail[id].at > cutoff
    ensures id in Pruned(trail, cutoff) ==> Pruned(trail, cutoff)[id] == trail[id]
  {
  }
}
