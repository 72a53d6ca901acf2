/** The gateway's local snapshot of the policy keys. */
module PolicyStore {
  import opened Common
  import opened Text

  /** A policy as the gateway holds it; times are nanoseconds. */
  datatype Decision = Decision(
    action: string,
    policyId: string,
    targetIdentity: string,
    campaignId: string,
    reason: string,
    source: string,
    mode: string,
    verb: string,
    route: string,
    requestsPerMinute: int,
    expiresIn: int,
    expiresAt: Option<int>,
    cacheUntil: Option<int>,
    redisKey: string)

  /** What a policy key holds: nothing any more, something that does not parse, or a policy with its endpoint scope. */
  datatype Value = Gone | Unreadable | Policy(decision: Decision, endpointScope: Option<(string, string)>)

  function Or(a: string, b: string): string { if a != "" then a else b }

  // ---- Collecting -------------------------------------------------------

  datatype Batch = Batch(keys: seq<string>, values: seq<Value>, ttls: seq<int>, observed: int)

  datatype Verdict = Skipped | Refused | Taken(decision: Decision)

  function Read(value: Value, key: string, deadline: int, cacheUntil: Option<int>): Decision
    requires value.Policy?
  {
    var d, scope := value.decision, value.endpointScope;
    d.(source := Or(d.source, "agent"),
    verb := Or(d.verb, if scope.Some? then scope.value.0 else ""),
    route := Or(d.route, if scope.Some? then scope.value.1 else ""),
    expiresAt := Some(deadline),
    cacheUntil := cacheUntil,
    redisKey := key)
  }

  /** A key without an expiry is refused; one that is gone or does not parse is passed over. */
  function VerdictOn(b: Batch, i: nat, cacheUntil: Option<int>): Verdict
    requires i < |b.values|
  {
    if i >= |b.keys| || b.values[i].Gone? then Skipped
    else if i >= |b.ttls| || b.ttls[i] <= 0 then Refused
    else if b.values[i].Unreadable? then Skipped
    else Taken(Read(b.values[i], b.keys[i], b.observed + b.ttls[i], cacheUntil))
  }

  /** A policy is taken exactly when its key has an expiry, and then until that expiry; what it leaves out is filled in:
      the engine as its source, and the scope of its endpoint. A key that holds something without an expiry is
      refused. */
  lemma VerdictExactly(b: Batch, i: nat, cacheUntil: Option<int>)
    requires i < |b.values|
    ensures var v, read, timed := VerdictOn(b, i, cacheUntil), i < |b.keys| && b.values[i] != Gone,
                                  i < |b.ttls| && b.ttls[i] > 0;
            && (v == Refused <==> read && !timed)
            && (v.Taken? <==> read && timed && b.values[i].Policy?)
            && (v.Taken? ==>
                  var d, given, scope := v.decision, b.values[i].decision, b.values[i].endpointScope;
                  && d.expiresAt == Some(b.observed + b.ttls[i]) && d.cacheUntil == cacheUntil
                  && d.redisKey == b.keys[i]
                  && d.source == (if given.source == "" then "agent" else given.source)
                  && (given.verb != "" || scope == None ==> d.verb == given.verb)
                  && (given.verb == "" && scope.Some? ==> d.verb == scope.value.0)
                  && (given.route != "" || scope == None ==> d.route == given.route)
                  && (given.route == "" && scope.Some? ==> d.route == scope.value.1)
                  && d == given.(expiresAt := d.expiresAt, cacheUntil := cacheUntil, redisKey := d.redisKey,
                                 source := d.source, verb := d.verb, route := d.route))
  {
  }

  /** The policies taken from the first n values, in order. */
  function TakenFrom(b: Batch, cacheUntil: Option<int>, n: nat): seq<Decision>
    requires n <= |b.values|
  {
    if n == 0 then []
    else
      var before := TakenFrom(b, cacheUntil, n - 1);
      match VerdictOn(b, n - 1, cacheUntil)
      case Taken(d) => before + [d]
      case _ => before
  }

  function RefusedFrom(b: Batch, cacheUntil: Option<int>, n: nat): nat
    requires n <= |b.values|
  {
    if n == 0 then 0
    else RefusedFrom(b, cacheUntil, n - 1) + (if VerdictOn(b, n - 1, cacheUntil).Refused? then 1 else 0)
  }

  function TrimPrefix(s: string, prefix: string): (r: string)
    ensures if prefix <= s then s == prefix + r else r == s
  {
    if prefix <= s then s[|prefix|..] else s
  }

  function IndexKey(ip: string, verb: string, route: string): string {
    if verb == "" && route == "" then ip else ip + "\0" + (Upper(verb) + "\0" + route)
  }

  function KeyOf(d: Decision, prefix: string): string {
    if d.targetIdentity != "" then IndexKey(d.targetIdentity, d.verb, d.route) else TrimPrefix(d.redisKey, prefix)
  }

  type Index = map<string, Decision>

  /** A later policy replaces an earlier one that has the same key. */
  function Indexed(base: Index, ds: seq<Decision>, prefix: string): Index {
    if ds == [] then base
    else
      var last := ds[|ds| - 1];
      Indexed(base, ds[..|ds| - 1], prefix)[KeyOf(last, prefix) := last]
  }

  method ReadPolicy(value: Value, key: string, deadline: int, cacheUntil: Option<int>) returns (d: Decision)
    requires value.Policy?
    ensures d == Read(value, key, deadline, cacheUntil) && d.redisKey == key
  {
    d := value.decision;
    d := d.(source := Or(d.source, "agent"));
    if value.endpointScope.Some? {
      var scope := value.endpointScope.value;
      d := d.(verb := Or(d.verb, scope.0), route := Or(d.route, scope.1));
    }
    d := d.(expiresAt := Some(deadline), cacheUntil := cacheUntil, redisKey := key);
  }

  method PlaceFor(d: Decision, redisKey: string, prefix: string) returns (key: string)
    requires d.redisKey == redisKey
    ensures key == KeyOf(d, prefix)
  {
    var target := Or(d.targetIdentity, TrimPrefix(redisKey, prefix));
    key := target;
    if d.targetIdentity != "" {
      key := IndexKey(target, d.verb, d.route);
    }
  }

  method Judge(b: Batch, i: nat, cacheUntil: Option<int>) returns (v: Verdict)
    requires i < |b.values| && i < |b.keys|
    ensures v == VerdictOn(b, i, cacheUntil)
    ensures v.Taken? ==> v.decision.redisKey == b.keys[i]
  {
    if b.values[i].Gone? {
      return Skipped;
    }
    if i >= |b.ttls| || b.ttls[i] <= 0 {
      return Refused;
    }
    if b.values[i].Unreadable? {
      return Skipped;
    }
    var d := ReadPolicy(b.values[i], b.keys[i], b.observed + b.ttls[i], cacheUntil);
    return Taken(d);
  }

  method CollectAt(base: Index, b: Batch, prefix: string, cacheUntil: Option<int>)
    returns (next: Index, unexpiring: nat)
    ensures next == Indexed(base, TakenFrom(b, cacheUntil, |b.values|), prefix)
    ensures unexpiring == RefusedFrom(b, cacheUntil, |b.values|)
  {
    hide VerdictOn, KeyOf, IndexKey, Indexed, TakenFrom, RefusedFrom;
    next, unexpiring := base, 0;
    NoneTaken(base, b, cacheUntil, prefix);
    for i := 0 to |b.values|
      invariant next == Indexed(base, TakenFrom(b, cacheUntil, i), prefix)
      invariant unexpiring == RefusedFrom(b, cacheUntil, i)
    {
      if i >= |b.keys| {
        NothingTaken(b, cacheUntil, i, |b.values|);
        return;
      }
      var v := Judge(b, i, cacheUntil);
      OneMoreVerdict(base, b, cacheUntil, prefix, i);
      if v.Refused? {
        unexpiring := unexpiring + 1;
      } else if v.Taken? {
        var key := PlaceFor(v.decision, b.keys[i], prefix);
        next := next[key := v.decision];
      }
    }
  }

  lemma NoneTaken(base: Index, b: Batch, cacheUntil: Option<int>, prefix: string)
    ensures Indexed(base, TakenFrom(b, cacheUntil, 0), prefix) == base && RefusedFrom(b, cacheUntil, 0) == 0
  {
  }

  lemma OneMoreVerdict(base: Index, b: Batch, cacheUntil: Option<int>, prefix: string, i: nat)
    requires i < |b.values|
    ensures var v := VerdictOn(b, i, cacheUntil);
            && Indexed(base, TakenFrom(b, cacheUntil, i + 1), prefix) ==
               (if v.Taken? then Indexed(base, TakenFrom(b, cacheUntil, i),
                                         prefix)[KeyOf(v.decision, prefix) := v.decision]
                else Indexed(base, TakenFrom(b, cacheUntil, i), prefix))
            && RefusedFrom(b, cacheUntil, i + 1) == RefusedFrom(b, cacheUntil, i) + (if v.Refused? then 1 else 0)
  {
    hide VerdictOn, KeyOf;
    var v, before := VerdictOn(b, i, cacheUntil), TakenFrom(b, cacheUntil, i);
    if v.Taken? {
      assert (before + [v.decision])[..|before|] == before;
    }
  }

  lemma {:induction false} NothingTaken(b: Batch, cacheUntil: Option<int>, i: nat, n: nat)
    requires |b.keys| <= i <= n <= |b.values|
    ensures TakenFrom(b, cacheUntil, n) == TakenFrom(b, cacheUntil, i)
    ensures RefusedFrom(b, cacheUntil, n) == RefusedFrom(b, cacheUntil, i)
  {
    if i < n {
      NothingTaken(b, cacheUntil, i, n - 1);
    }
  }

  /** Everything taken is time-bounded: it ends, after the moment it was read. */
  lemma {:induction false} TakenExpires(b: Batch, cacheUntil: Option<int>, n: nat)
    requires n <= |b.values|
    ensures forall d :: d in TakenFrom(b, cacheUntil, n) ==> d.expiresAt.Some? && b.observed < d.expiresAt.value
  {
    if n > 0 {
      TakenExpires(b, cacheUntil, n - 1);
    }
  }

  function AllTaken(batches: seq<Batch>, cacheUntil: Option<int>): seq<Decision> {
    if batches == [] then []
    else
      var last := batches[|batches| - 1];
      AllTaken(batches[..|batches| - 1], cacheUntil) + TakenFrom(last, cacheUntil, |last.values|)
  }

  function AllRefused(batches: seq<Batch>, cacheUntil: Option<int>): nat {
    if batches == [] then 0
    else
      var last := batches[|batches| - 1];
      AllRefused(batches[..|batches| - 1], cacheUntil) + RefusedFrom(last, cacheUntil, |last.values|)
  }

  lemma {:induction false} IndexedTwice(base: Index, ds: seq<Decision>, es: seq<Decision>, prefix: string)
    ensures Indexed(Indexed(base, ds, prefix), es, prefix) == Indexed(base, ds + es, prefix)
  {
    if es == [] {
      assert ds + es == ds;
    } else {
      IndexedTwice(base, ds, es[..|es| - 1], prefix);
      assert (ds + es)[..|ds + es| - 1] == ds + es[..|es| - 1];
    }
  }

  lemma NothingIndexed(prefix: string)
    ensures Indexed(map[], [], prefix) == map[]
  {
  }

  // ---- Looking up -------------------------------------------------------

  predicate Before(now: int, deadline: Option<int>) { deadline.None? || now < deadline.value }

  predicate Live(d: Decision, now: int) { d.action != "" && Before(now, d.expiresAt) && Before(now, d.cacheUntil) }

  predicate Matches(d: Decision, route: string, verb: string, now: int) {
    && (d.route == "" || d.route == route)
    && (d.verb == "" || d.verb == verb)
    && Before(now, d.expiresAt)
  }

  const HUMAN_PRIORITY: int := 3

  /** A person decided, and not the engine. */
  predicate FromPerson(d: Decision) {
    d.source == "human" || d.source == "manual_override" || d.mode == "manual_override"
  }

  lemma HumanExactly(d: Decision)
    ensures Priority(d) == HUMAN_PRIORITY <==> FromPerson(d)
  {
  }

  function Priority(d: Decision): int {
    if d.source == "human" || d.source == "manual_override" || d.mode == "manual_override" then HUMAN_PRIORITY
    else if d.source == "approved" then 2
    else 1
  }

  function LiveAt(m: Index, key: string, now: int): Option<Decision> {
    if key in m && Live(m[key], now) then Some(m[key]) else None
  }

  /** Only two keys can answer a request: the address's own and the endpoint's. */
  function Find(m: Index, ip: string, route: string, verb: string, now: int): Option<Decision> {
    var wide := LiveAt(m, ip, now);
    var scoped := LiveAt(m, IndexKey(ip, verb, route), now);
    if wide.None? || !Matches(wide.value, route, verb, now) then scoped
    else if scoped.None? then wide
    else if Priority(wide.value) > Priority(scoped.value) then wide
    else scoped
  }

  class Store {
    const prefix: string
    const cacheMaxAge: int
    var snapshot: Option<Index>
    var unexpiring: nat

    constructor (prefix: string, cacheMaxAge: int)
      ensures this.prefix == prefix && this.cacheMaxAge == cacheMaxAge && snapshot == None
    {
      this.prefix, this.cacheMaxAge := prefix, cacheMaxAge;
      snapshot, unexpiring := None, 0;
    }

    /** The snapshot is what a complete scan of these batches gives. */
    ghost predicate Refreshed(batches: seq<Batch>, started: int)
      reads this
    {
      && snapshot == Some(Indexed(map[], AllTaken(batches, Some(started + cacheMaxAge)), prefix))
      && unexpiring == AllRefused(batches, Some(started + cacheMaxAge))
    }

    /** Rebuilds the snapshot. failed says that a call to the store failed after the given batches: a source that cannot
        be read authorises nothing. */
    method Refresh(batches: seq<Batch>, failed: bool, started: int)
      modifies this
      ensures failed ==> snapshot == None && unexpiring == old(unexpiring)
      ensures !failed ==> Refreshed(batches, started)
    {
      hide Indexed, TakenFrom, RefusedFrom;
      var next: Index, refused := map[], 0;
      var cacheUntil := Some(started + cacheMaxAge);
      NothingIndexed(prefix);
      for k := 0 to |batches|
        invariant next == Indexed(map[], AllTaken(batches[..k], cacheUntil), prefix)
        invariant refused == AllRefused(batches[..k], cacheUntil)
        invariant unexpiring == old(unexpiring)
      {
        assert batches[..k + 1][..k] == batches[..k];
        IndexedTwice(map[], AllTaken(batches[..k], cacheUntil), TakenFrom(batches[k], cacheUntil, |batches[k].values|),
                     prefix);
        var more;
        next, more := CollectAt(next, batches[k], prefix, cacheUntil);
        refused := refused + more;
      }
      assert batches[..|batches|] == batches;
      if failed {
        snapshot := None;
        return;
      }
      unexpiring := refused;
      snapshot := Some(next);
    }

    /** Without a snapshot there is no answer. */
    function LookupRequest(ip: string, route: string, verb: string, now: int): (r: Option<Decision>)
      reads this
      ensures snapshot.None? ==> r.None?
    {
      if snapshot.None? then None else Find(snapshot.value, ip, route, verb, now)
    }
  }
}
