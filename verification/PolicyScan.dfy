/** The index answers as a scan of all policies would. */
module PolicyScan {
  import opened Common
  import opened Text
  import opened PolicyStore

  predicate Unscoped(d: Decision) { d.verb == "" && d.route == "" }

  predicate FullyScoped(d: Decision) { d.verb != "" && d.route != "" }

  /** A policy that names its target. */
  predicate Targeted(d: Decision) { d.targetIdentity != "" && NulFree(d.targetIdentity) && NulFree(d.verb) }

  /** For the whole address, or for one endpoint of it. */
  predicate Whole(d: Decision) { Unscoped(d) || FullyScoped(d) }

  predicate WellScoped(d: Decision) { Targeted(d) && Whole(d) }

  /** A policy with half an endpoint, for a request with both halves. */
  predicate Missed(d: Decision, route: string, verb: string) { verb != "" && route != "" && !Whole(d) }

  predicate SameScope(d: Decision, e: Decision) {
    d.targetIdentity == e.targetIdentity && Upper(d.verb) == Upper(e.verb) && d.route == e.route
  }

  lemma UpperKeepsNul(s: string)
    ensures NulFree(Upper(s)) == NulFree(s)
  {
    if !NulFree(s) {
      var i :| 0 <= i < |s| && s[i] == '\0';
      assert Upper(s)[i] == '\0';
    }
  }

  /** Different scopes have different keys. */
  lemma IndexKeyInjective(ip: string, verb: string, route: string, ip': string, verb': string, route': string)
    requires NulFree(ip) && NulFree(ip') && NulFree(verb) && NulFree(verb')
    ensures IndexKey(ip, verb, route) == IndexKey(ip', verb', route') <==>
            ip == ip' && Upper(verb) == Upper(verb') && route == route'
  {
    UpperKeepsNul(verb);
    UpperKeepsNul(verb');
    var key, key' := IndexKey(ip, verb, route), IndexKey(ip', verb', route');
    if verb == "" && route == "" {
      assert verb' != "" || route' != "" ==> key'[|ip'|] == '\0';
      assert forall i :: 0 <= i < |ip| ==> ip[i] in ip;
    } else if verb' == "" && route' == "" {
      assert key[|ip|] == '\0';
      assert forall i :: 0 <= i < |ip'| ==> ip'[i] in ip';
    } else if key == key' {
      SplitsOnce('\0', ip, Upper(verb) + "\0" + route, ip', Upper(verb') + "\0" + route');
      SplitsOnce('\0', Upper(verb), route, Upper(verb'), route');
    }
  }

  /** Nothing later replaces the policy at i. */
  ghost predicate Standing(ds: seq<Decision>, i: nat)
    requires i < |ds|
  {
    forall j :: i < j < |ds| ==> !SameScope(ds[i], ds[j])
  }

  predicate InScope(d: Decision, ip: string, route: string, verb: string) {
    && d.targetIdentity == ip
    && (d.route == "" || d.route == route)
    && (d.verb == "" || Upper(d.verb) == Upper(verb))
  }

  /** It says what to do, and neither its key nor its snapshot is out of date. */
  predicate InForce(d: Decision, now: int) {
    && d.action != ""
    && (d.expiresAt == None || d.expiresAt.value > now)
    && (d.cacheUntil == None || d.cacheUntil.value > now)
  }

  lemma LiveExactly(d: Decision, now: int)
    ensures Live(d, now) <==> InForce(d, now)
  {
  }

  /** A policy matches the requests for the route and the method it names, or for all where it names none. */
  lemma MatchesExactly(d: Decision, route: string, verb: string, now: int)
    ensures Matches(d, route, verb, now) <==>
            d.route in {"", route} && d.verb in {"", verb} && (d.expiresAt.Some? ==> d.expiresAt.value > now)
  {
  }

  /** A policy that speaks about the request, is in force, and has not been replaced. */
  ghost predicate Candidate(ds: seq<Decision>, i: nat, ip: string, route: string, verb: string, now: int)
    requires i < |ds|
  {
    Standing(ds, i) && InScope(ds[i], ip, route, verb) && InForce(ds[i], now)
  }

  /** d names every part of an endpoint that e names. */
  predicate AsNarrow(d: Decision, e: Decision) { (d.verb == "" ==> e.verb == "") && (d.route == "" ==> e.route == "") }

  /** A person's policy is above one that a person approved, and that is above all others. */
  predicate HigherOrigin(d: Decision, e: Decision) {
    || (FromPerson(d) && !FromPerson(e))
    || (d.source == "approved" && !FromPerson(e) && e.source != "approved")
  }

  /** The priorities order policies by their origin. */
  lemma PriorityExactly(d: Decision, e: Decision)
    ensures Priority(d) > Priority(e) <==> HigherOrigin(d, e)
    ensures Priority(d) == Priority(e) <==> !HigherOrigin(d, e) && !HigherOrigin(e, d)
    ensures Priority(d) == HUMAN_PRIORITY <==> FromPerson(d)
  {
  }

  /** The higher origin first, then the narrower scope: the endpoint's policy over the address's. */
  predicate Outranks(d: Decision, e: Decision) {
    HigherOrigin(d, e) || (!HigherOrigin(e, d) && AsNarrow(d, e))
  }

  lemma OutranksByPriority(d: Decision, e: Decision)
    ensures Outranks(d, e) <==> Priority(d) > Priority(e) || (Priority(d) == Priority(e) && AsNarrow(d, e))
  {
    PriorityExactly(d, e);
  }

  /** What a scan of all policies picks. */
  ghost predicate ScanPicks(ds: seq<Decision>, ip: string, route: string, verb: string, now: int, r: Option<Decision>) {
    match r
    case None => forall i :: 0 <= i < |ds| ==> !Candidate(ds, i, ip, route, verb, now)
    case Some(d) =>
      && (exists i :: 0 <= i < |ds| && ds[i] == d && Candidate(ds, i, ip, route, verb, now))
      && (forall i :: 0 <= i < |ds| && Candidate(ds, i, ip, route, verb, now) ==> Outranks(d, ds[i]))
  }

  /** The position of the last policy with a key. */
  function LastAt(ds: seq<Decision>, prefix: string, key: string): Option<nat> {
    if ds == [] then None
    else if KeyOf(ds[|ds| - 1], prefix) == key then Some(|ds| - 1)
    else LastAt(ds[..|ds| - 1], prefix, key)
  }

  /** The position i is the last one with a key. */
  lemma {:induction false} LastAtExactly(ds: seq<Decision>, prefix: string, key: string)
    ensures forall i: nat :: LastAt(ds, prefix, key) == Some(i) <==> i < |ds| && IsLast(ds, prefix, key, i)
    ensures LastAt(ds, prefix, key).Some? ==> LastAt(ds, prefix, key).value < |ds|
  {
    hide KeyOf;
    if ds != [] {
      LastAtExactly(ds[..|ds| - 1], prefix, key);
    }
  }

  ghost predicate IsLast(ds: seq<Decision>, prefix: string, key: string, i: nat)
    requires i < |ds|
  {
    KeyOf(ds[i], prefix) == key && forall j :: i < j < |ds| ==> KeyOf(ds[j], prefix) != key
  }

  /** The index holds, for every key, the last policy with that key. */
  lemma {:induction false} IndexHoldsLast(ds: seq<Decision>, prefix: string, key: string)
    ensures key in Indexed(map[], ds, prefix) <==> LastAt(ds, prefix, key).Some?
    ensures key in Indexed(map[], ds, prefix) ==>
              LastAt(ds, prefix, key).value < |ds|
                && Indexed(map[], ds, prefix)[key] == ds[LastAt(ds, prefix, key).value]
  {
    if ds != [] {
      IndexHoldsLast(ds[..|ds| - 1], prefix, key);
      hide KeyOf;
    }
  }

  ghost predicate AllWellScoped(ds: seq<Decision>) {
    forall i :: 0 <= i < |ds| ==> WellScoped(ds[i])
  }

  ghost predicate AllTargeted(ds: seq<Decision>) {
    forall i :: 0 <= i < |ds| ==> Targeted(ds[i])
  }

  lemma SameKeySameScope(d: Decision, e: Decision, prefix: string)
    requires Targeted(d) && Targeted(e)
    ensures KeyOf(d, prefix) == KeyOf(e, prefix) <==> SameScope(d, e)
  {
    IndexKeyInjective(d.targetIdentity, d.verb, d.route, e.targetIdentity, e.verb, e.route);
  }

  /** The policies kept under a key are the standing ones with that scope. */
  lemma StandingIsLast(ds: seq<Decision>, prefix: string, i: nat)
    requires AllTargeted(ds) && i < |ds|
    ensures Standing(ds, i) <==> LastAt(ds, prefix, KeyOf(ds[i], prefix)) == Some(i)
  {
    forall j | i < j < |ds| ensures KeyOf(ds[i], prefix) == KeyOf(ds[j], prefix) <==> SameScope(ds[i], ds[j]) {
      SameKeySameScope(ds[i], ds[j], prefix);
    }
    LastAtExactly(ds, prefix, KeyOf(ds[i], prefix));
    hide KeyOf, SameScope, LastAt, Targeted;
  }

  /** A policy that speaks about a request is under one of the two keys the lookup reads, unless it is missed. */
  lemma InScopeByKey(d: Decision, prefix: string, ip: string, route: string, verb: string)
    requires Targeted(d) && NulFree(ip) && NulFree(verb)
    ensures InScope(d, ip, route, verb) && !Missed(d, route, verb) <==>
            KeyOf(d, prefix) == ip || KeyOf(d, prefix) == IndexKey(ip, verb, route)
    ensures KeyOf(d, prefix) == ip ==> Unscoped(d)
  {
    IndexKeyInjective(d.targetIdentity, d.verb, d.route, ip, "", "");
    IndexKeyInjective(d.targetIdentity, d.verb, d.route, ip, verb, route);
    hide NulFree;
    assert |Upper(verb)| == |verb| && |Upper(d.verb)| == |d.verb|;
  }

  lemma CandidateByKey(ds: seq<Decision>, prefix: string, i: nat, ip: string, route: string, verb: string, now: int)
    requires AllTargeted(ds) && NulFree(ip) && NulFree(verb) && i < |ds|
    ensures Candidate(ds, i, ip, route, verb, now) && !Missed(ds[i], route, verb) <==>
            Live(ds[i], now)
              && (LastAt(ds, prefix, ip) == Some(i) || LastAt(ds, prefix, IndexKey(ip, verb, route)) == Some(i))
    ensures LastAt(ds, prefix, ip) == Some(i) ==> Unscoped(ds[i])
  {
    StandingIsLast(ds, prefix, i);
    InScopeByKey(ds[i], prefix, ip, route, verb);
    LastAtExactly(ds, prefix, ip);
    LastAtExactly(ds, prefix, IndexKey(ip, verb, route));
    LastAtExactly(ds, prefix, KeyOf(ds[i], prefix));
    LiveExactly(ds[i], now);
    hide LastAt, KeyOf, IndexKey, Standing, InScope, Live, InForce, Missed, Targeted, NulFree;
  }

  lemma WideMatches(d: Decision, route: string, verb: string, now: int)
    requires Unscoped(d)
    ensures Live(d, now) ==> Matches(d, route, verb, now)
  {
  }

  /** What the scan picks among the candidates that are not missed. */
  ghost predicate PicksReached(ds: seq<Decision>, ip: string, route: string, verb: string, now: int,
                               r: Option<Decision>)
  {
    match r
    case None => forall i :: 0 <= i < |ds| && Candidate(ds, i, ip, route, verb, now) ==> Missed(ds[i], route, verb)
    case Some(d) =>
      && (exists i :: 0 <= i < |ds| && ds[i] == d && Candidate(ds, i, ip, route, verb, now))
      && !Missed(d, route, verb)
      && (forall i :: 0 <= i < |ds| && Candidate(ds, i, ip, route, verb, now) && !Missed(ds[i], route, verb) ==>
            Outranks(d, ds[i]))
  }

  /** Looking two keys up picks what a scan of everything but the missed policies picks. */
  lemma LookupPicksReached(ds: seq<Decision>, prefix: string, ip: string, route: string, verb: string, now: int)
    requires AllTargeted(ds) && NulFree(ip) && NulFree(verb)
    ensures PicksReached(ds, ip, route, verb, now, Find(Indexed(map[], ds, prefix), ip, route, verb, now))
  {
    hide Indexed, Candidate, LastAt, IndexKey, Priority, Live, Matches, IsLast, NulFree, Targeted, Missed, Outranks;
    var m, scopedKey := Indexed(map[], ds, prefix), IndexKey(ip, verb, route);
    IndexHoldsLast(ds, prefix, ip);
    IndexHoldsLast(ds, prefix, scopedKey);
    forall i | 0 <= i < |ds|
      ensures Candidate(ds, i, ip, route, verb, now) && !Missed(ds[i], route, verb) <==>
              Live(ds[i], now) && (LastAt(ds, prefix, ip) == Some(i) || LastAt(ds, prefix, scopedKey) == Some(i))
    {
      CandidateByKey(ds, prefix, i, ip, route, verb, now);
    }
    var wide, scoped := LastAt(ds, prefix, ip), LastAt(ds, prefix, scopedKey);
    if wide.Some? {
      CandidateByKey(ds, prefix, wide.value, ip, route, verb, now);
      WideMatches(ds[wide.value], route, verb, now);
    }
    if scoped.Some? {
      CandidateByKey(ds, prefix, scoped.value, ip, route, verb, now);
    }
    forall i, j | 0 <= i < |ds| && 0 <= j < |ds|
      ensures Outranks(ds[i], ds[j]) <==>
              Priority(ds[i]) > Priority(ds[j]) || (Priority(ds[i]) == Priority(ds[j]) && AsNarrow(ds[i], ds[j]))
    {
      OutranksByPriority(ds[i], ds[j]);
    }
  }

  /** Some candidate for the whole address or the whole endpoint is preferred to the policy. */
  ghost predicate Overruled(ds: seq<Decision>, e: Decision, ip: string, route: string, verb: string, now: int) {
    exists j :: 0 <= j < |ds| && Candidate(ds, j, ip, route, verb, now) && Whole(ds[j]) && Outranks(ds[j], e)
  }

  /** For all policies that name a target, and every request: looking two keys up picks what a scan of all policies
      picks if and only if every candidate with half an endpoint is overruled by a whole one, or the request lacks a
      half itself. */
  lemma LookupExactly(ds: seq<Decision>, prefix: string, ip: string, route: string, verb: string, now: int)
    requires AllTargeted(ds) && NulFree(ip) && NulFree(verb)
    ensures ScanPicks(ds, ip, route, verb, now, Find(Indexed(map[], ds, prefix), ip, route, verb, now)) <==>
            forall i :: 0 <= i < |ds| && Candidate(ds, i, ip, route, verb, now) && Missed(ds[i], route, verb) ==>
              Overruled(ds, ds[i], ip, route, verb, now)
  {
    LookupPicksReached(ds, prefix, ip, route, verb, now);
    hide Indexed, Find, Candidate, Priority, FullyScoped, Unscoped, NulFree, Targeted, Outranks;
    var r := Find(Indexed(map[], ds, prefix), ip, route, verb, now);
    forall i | 0 <= i < |ds| && Candidate(ds, i, ip, route, verb, now) && Missed(ds[i], route, verb)
      ensures Overruled(ds, ds[i], ip, route, verb, now) <==> r.Some? && Outranks(r.value, ds[i])
    {
      if r.Some? {
        forall j | 0 <= j < |ds| && Candidate(ds, j, ip, route, verb, now) && Whole(ds[j]) && Outranks(ds[j], ds[i])
          ensures Outranks(r.value, ds[i])
        {
          OutranksMissed(r.value, ds[j], ds[i]);
        }
      }
    }
  }

  lemma OutranksMissed(d: Decision, w: Decision, e: Decision)
    requires Whole(d) && Whole(w) && !Whole(e) && Outranks(d, w) && Outranks(w, e)
    ensures Outranks(d, e)
  {
  }

  /** Without half scopes it picks what the scan picks. */
  lemma LookupPicksLikeScan(ds: seq<Decision>, prefix: string, ip: string, route: string, verb: string, now: int)
    requires AllWellScoped(ds) && NulFree(ip) && NulFree(verb)
    ensures ScanPicks(ds, ip, route, verb, now, Find(Indexed(map[], ds, prefix), ip, route, verb, now))
  {
    hide Indexed, Find, Candidate, ScanPicks, Overruled, NulFree, Targeted, Whole;
    LookupExactly(ds, prefix, ip, route, verb, now);
  }

  lemma ScanPicksOne(ds: seq<Decision>, ip: string, route: string, verb: string, now: int, r: Option<Decision>,
                     r': Option<Decision>)
    requires ScanPicks(ds, ip, route, verb, now, r) && ScanPicks(ds, ip, route, verb, now, r')
    ensures r == r'
  {
    if r.Some? && r'.Some? {
      var i :| 0 <= i < |ds| && ds[i] == r.value && Candidate(ds, i, ip, route, verb, now);
      var j :| 0 <= j < |ds| && ds[j] == r'.value && Candidate(ds, j, ip, route, verb, now);
      assert Outranks(ds[i], ds[j]) && Outranks(ds[j], ds[i]);
      assert SameScope(ds[i], ds[j]);
    }
  }

  /** No answer outlives its key, or the age the snapshot may reach. */
  lemma AnswersAreTimeBounded(batches: seq<Batch>, cacheUntil: int, prefix: string, ip: string, route: string,
                              verb: string, now: int)
    ensures var r := Find(Indexed(map[], AllTaken(batches, Some(cacheUntil)), prefix), ip, route, verb, now);
            r.Some? ==> now < cacheUntil && r.value.expiresAt.Some? && now < r.value.expiresAt.value
  {
    var ds := AllTaken(batches, Some(cacheUntil));
    var scopedKey := IndexKey(ip, verb, route);
    IndexHoldsLast(ds, prefix, ip);
    IndexHoldsLast(ds, prefix, scopedKey);
    AllBounded(batches, cacheUntil);
    hide Indexed, LastAt, AllTaken, IndexKey, Priority, Matches;
  }

  ghost predicate Bounded(ds: seq<Decision>, cacheUntil: int) {
    forall i :: 0 <= i < |ds| ==> ds[i].expiresAt.Some? && ds[i].cacheUntil == Some(cacheUntil)
  }

  lemma {:induction false} TakenBounded(b: Batch, cacheUntil: int, n: nat)
    requires n <= |b.values|
    ensures Bounded(TakenFrom(b, Some(cacheUntil), n), cacheUntil)
  {
    if n > 0 {
      TakenBounded(b, cacheUntil, n - 1);
    }
  }

  lemma {:induction false} AllBounded(batches: seq<Batch>, cacheUntil: int)
    ensures Bounded(AllTaken(batches, Some(cacheUntil)), cacheUntil)
  {
    if batches != [] {
      AllBounded(batches[..|batches| - 1], cacheUntil);
      TakenBounded(batches[|batches| - 1], cacheUntil, |batches[|batches| - 1].values|);
      hide TakenFrom;
    }
  }

  /** After a complete refresh the store answers as a scan of everything it took would, and never beyond the age of its
      snapshot. */
  lemma RefreshedStoreScans(store: Store, batches: seq<Batch>, started: int, ip: string, route: string, verb: string,
                            now: int)
    requires store.Refreshed(batches, started)
    requires AllWellScoped(AllTaken(batches, Some(started + store.cacheMaxAge))) && NulFree(ip) && NulFree(verb)
    ensures var r := store.LookupRequest(ip, route, verb, now);
            && ScanPicks(AllTaken(batches, Some(started + store.cacheMaxAge)), ip, route, verb, now, r)
            && (r.Some? ==>
                now < started + store.cacheMaxAge && r.value.expiresAt.Some? && now < r.value.expiresAt.value)
  {
    var until := started + store.cacheMaxAge;
    LookupPicksLikeScan(AllTaken(batches, Some(until)), store.prefix, ip, route, verb, now);
    AnswersAreTimeBounded(batches, until, store.prefix, ip, route, verb, now);
    hide AllWellScoped, ScanPicks, Find, Indexed, AllTaken, AllRefused;
  }

  /** A single policy that names a target is found by every full request it speaks about exactly when it is for the
      whole address or for a whole endpoint; with half an endpoint it is kept where no full request looks. */
  lemma HalfScopesAreMissed(d: Decision, prefix: string, now: int)
    requires Targeted(d) && Live(d, now)
    ensures (forall ip, route, verb :: NulFree(ip) && NulFree(verb) && verb != "" && route != "" ==>
               ScanPicks([d], ip, route, verb, now, Find(Indexed(map[], [d], prefix), ip, route, verb, now)))
            <==> Whole(d)
  {
    var ip, route, verb := d.targetIdentity, Or(d.route, "/"), Or(d.verb, "GET");
    if Whole(d) {
      forall ip, route, verb | NulFree(ip) && NulFree(verb) && verb != "" && route != ""
        ensures ScanPicks([d], ip, route, verb, now, Find(Indexed(map[], [d], prefix), ip, route, verb, now))
      {
        LookupPicksLikeScan([d], prefix, ip, route, verb, now);
      }
    } else {
      LookupExactly([d], prefix, ip, route, verb, now);
      hide Find, Indexed, ScanPicks, Live;
      assert Candidate([d], 0, ip, route, verb, now);
      assert !Overruled([d], d, ip, route, verb, now);
    }
  }
}
