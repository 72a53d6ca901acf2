/** Eviction from full tables, shared by the detectors. Times are nanoseconds; 0 is the zero time. */
module Eviction {
  import opened Sums

  /** Every entry has a time and an address or key that is not empty. */
  ghost predicate AllTimed<V>(m: map<string, V>, seen: V -> int) {
    "" !in m && forall k :: k in m ==> seen(m[k]) != 0
  }

  ghost predicate IsOldest<V>(m: map<string, V>, seen: V -> int, k: string) {
    k in m && seen(m[k]) != 0 && forall j :: j in m && seen(m[j]) != 0 ==> seen(m[k]) <= seen(m[j])
  }

  /** r is m without one entry seen longest ago; entries with no time are never chosen. */
  ghost predicate DroppedOldest<V>(m: map<string, V>, seen: V -> int, r: map<string, V>) {
    if exists k :: k in m && seen(m[k]) != 0
    then exists k :: IsOldest(m, seen, k) && r == m - {k}
    else r == m
  }

  method DropOldest<V>(m: map<string, V>, seen: V -> int) returns (r: map<string, V>)
    requires "" !in m
    ensures DroppedOldest(m, seen, r)
  {
    var oldestKey, oldest := "", 0;
    var todo := m.Keys;
    while todo != {}
      invariant todo <= m.Keys
      invariant oldestKey == "" ==> forall k :: k in m && k !in todo ==> seen(m[k]) == 0
      invariant oldestKey != "" ==> oldestKey in m && oldest == seen(m[oldestKey]) != 0
      invariant oldestKey != "" ==> forall k :: k in m && k !in todo && seen(m[k]) != 0 ==> oldest <= seen(m[k])
      decreases todo
    {
      var key :| key in todo;
      var at := seen(m[key]);
      if at != 0 && (oldestKey == "" || at < oldest) {
        oldestKey, oldest := key, at;
      }
      todo := todo - {key};
    }
    if oldestKey != "" {
      r := m - {oldestKey};
      assert IsOldest(m, seen, oldestKey);
    } else {
      r := m;
    }
  }

  /** r keeps the newest entries of m, as many as the limit allows. */
  ghost predicate KeepsNewest<V>(m: map<string, V>, seen: V -> int, limit: nat, r: map<string, V>) {
    && (forall k :: k in r ==> k in m && r[k] == m[k])
    && |r| == (if |m| <= limit then |m| else limit)
    && (forall k, j :: k in r && j in m && j !in r ==> seen(m[j]) <= seen(m[k]))
  }

  lemma DropShrinks<V>(m: map<string, V>, seen: V -> int, r: map<string, V>)
    requires AllTimed(m, seen) && m != map[] && DroppedOldest(m, seen, r)
    ensures |r| == |m| - 1 && AllTimed(r, seen)
    ensures exists k :: IsOldest(m, seen, k) && r == m - {k}
  {
    var some :| some in m.Keys;
    assert some in m && seen(m[some]) != 0;
    var k :| IsOldest(m, seen, k) && r == m - {k};
    assert r.Keys == m.Keys - {k};
    assert |r| == |r.Keys| && |m| == |m.Keys|;
  }

  /** Evicts until the limit is met. It ends because every timed entry can be chosen. */
  method Trim<V>(m: map<string, V>, seen: V -> int, limit: nat) returns (r: map<string, V>)
    requires AllTimed(m, seen)
    ensures KeepsNewest(m, seen, limit, r) && AllTimed(r, seen)
  {
    r := m;
    while |r| > limit
      invariant AllTimed(r, seen)
      invariant KeepsNewest(m, seen, |r|, r)
      invariant |r| <= limit ==> |r| == (if |m| <= limit then |m| else limit)
      decreases |r|
    {
      ghost var before := r;
      r := DropOldest(r, seen);
      DropShrinks(before, seen, r);
      TrimStep(m, seen, before, r);
    }
  }

  lemma TrimStep<V>(m: map<string, V>, seen: V -> int, before: map<string, V>, r: map<string, V>)
    requires AllTimed(before, seen) && KeepsNewest(m, seen, |before|, before)
    requires |r| == |before| - 1 && exists k :: IsOldest(before, seen, k) && r == before - {k}
    ensures KeepsNewest(m, seen, |r|, r)
  {
    SubsetSize(before.Keys, m.Keys);
    assert |before.Keys| == |before| && |m.Keys| == |m|;
  }
}
