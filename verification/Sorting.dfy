/** Sorting and counting, shared by the components that sort a list before they read it. */
module Sorting {

  ghost predicate TotalOrder<T(!new)>(leq: (T, T) -> bool) {
    && (forall x, y :: leq(x, y) || leq(y, x))
    && (forall x, y, z :: leq(x, y) && leq(y, z) ==> leq(x, z))
  }

  ghost predicate SortedBy<T>(leq: (T, T) -> bool, s: seq<T>) {
    forall i, j :: 0 <= i < j < |s| ==> leq(s[i], s[j])
  }

  function Insert<T>(leq: (T, T) -> bool, x: T, s: seq<T>): (r: seq<T>)
    ensures |r| == |s| + 1
  {
    if s == [] then [x]
    else if leq(x, s[0]) then [x] + s
    else [s[0]] + Insert(leq, x, s[1..])
  }

  function Sort<T>(leq: (T, T) -> bool, s: seq<T>): (r: seq<T>)
    ensures |r| == |s|
  {
    if s == [] then [] else Insert(leq, s[0], Sort(leq, s[1..]))
  }

  lemma {:induction false} InsertKeepsElements<T>(leq: (T, T) -> bool, x: T, s: seq<T>)
    ensures multiset(Insert(leq, x, s)) == multiset(s) + multiset{x}
  {
    if s != [] && !leq(x, s[0]) {
      InsertKeepsElements(leq, x, s[1..]);
      assert s == [s[0]] + s[1..];
    }
  }

  lemma {:induction false} SortKeepsElements<T>(leq: (T, T) -> bool, s: seq<T>)
    ensures multiset(Sort(leq, s)) == multiset(s)
  {
    if s != [] {
      SortKeepsElements(leq, s[1..]);
      InsertKeepsElements(leq, s[0], Sort(leq, s[1..]));
      assert s == [s[0]] + s[1..];
    }
  }

  lemma {:induction false} InsertSorted<T(!new)>(leq: (T, T) -> bool, x: T, s: seq<T>)
    requires TotalOrder(leq) && SortedBy(leq, s)
    ensures SortedBy(leq, Insert(leq, x, s))
  {
    if s != [] && !leq(x, s[0]) {
      var rest := Insert(leq, x, s[1..]);
      InsertSorted(leq, x, s[1..]);
      InsertKeepsElements(leq, x, s[1..]);
      forall k | 0 <= k < |rest| ensures leq(s[0], rest[k]) {
        assert rest[k] in multiset(rest);
        assert rest[k] == x || rest[k] in s[1..];
      }
    }
  }

  lemma {:induction false} SortSorted<T(!new)>(leq: (T, T) -> bool, s: seq<T>)
    requires TotalOrder(leq)
    ensures SortedBy(leq, Sort(leq, s))
  {
    if s != [] {
      SortSorted(leq, s[1..]);
      InsertSorted(leq, s[0], Sort(leq, s[1..]));
    }
  }

  /** How many elements of s satisfy p. */
  function Count<T>(p: T -> bool, s: seq<T>): (n: nat)
    ensures n <= |s|
  {
    if s == [] then 0 else (if p(s[0]) then 1 else 0) + Count(p, s[1..])
  }

  lemma {:induction false} CountInsert<T>(leq: (T, T) -> bool, p: T -> bool, x: T, s: seq<T>)
    ensures Count(p, Insert(leq, x, s)) == (if p(x) then 1 else 0) + Count(p, s)
  {
    if s == [] {
    } else if leq(x, s[0]) {
      assert ([x] + s)[1..] == s;
    } else {
      CountInsert(leq, p, x, s[1..]);
      assert ([s[0]] + Insert(leq, x, s[1..]))[1..] == Insert(leq, x, s[1..]);
    }
  }

  lemma {:induction false} SortKeepsCount<T>(leq: (T, T) -> bool, p: T -> bool, s: seq<T>)
    ensures Count(p, Sort(leq, s)) == Count(p, s)
  {
    if s != [] {
      SortKeepsCount(leq, p, s[1..]);
      CountInsert(leq, p, s[0], Sort(leq, s[1..]));
    }
  }

  lemma {:induction false} CountAll<T>(p: T -> bool, s: seq<T>)
    requires forall x :: x in s ==> p(x)
    ensures Count(p, s) == |s|
  {
    if s != [] {
      CountAll(p, s[1..]);
    }
  }

  lemma {:induction false} CountSplit<T>(p: T -> bool, s: seq<T>, t: seq<T>)
    ensures Count(p, s + t) == Count(p, s) + Count(p, t)
  {
    if s == [] {
      assert s + t == t;
    } else {
      CountSplit(p, s[1..], t);
      assert (s + t)[1..] == s[1..] + t;
    }
  }

  lemma CountFromSuffix<T>(p: T -> bool, s: seq<T>, i: nat)
    requires i <= |s|
    requires forall k :: i <= k < |s| ==> p(s[k])
    ensures Count(p, s) >= |s| - i
  {
    assert s == s[..i] + s[i..];
    CountSplit(p, s[..i], s[i..]);
    CountAll(p, s[i..]);
  }

  lemma CountFromPrefix<T>(p: T -> bool, s: seq<T>, i: nat)
    requires i <= |s|
    requires forall k :: 0 <= k < i ==> p(s[k])
    ensures Count(p, s) >= i
  {
    assert s == s[..i] + s[i..];
    CountSplit(p, s[..i], s[i..]);
    CountAll(p, s[..i]);
  }

  lemma {:induction false} CountNone<T>(p: T -> bool, s: seq<T>)
    requires forall x :: x in s ==> !p(x)
    ensures Count(p, s) == 0
  {
    if s != [] {
      CountNone(p, s[1..]);
    }
  }

  lemma {:induction false} CountAtMostOnce<T>(p: T -> bool, s: seq<T>)
    requires forall i, j :: 0 <= i < j < |s| ==> !(p(s[i]) && p(s[j]))
    ensures Count(p, s) <= 1
  {
    if s != [] {
      if p(s[0]) {
        CountNone(p, s[1..]);
      } else {
        CountAtMostOnce(p, s[1..]);
      }
    }
  }

  lemma {:induction false} CountTwice<T>(p: T -> bool, s: seq<T>, i: nat, j: nat)
    requires i < j < |s| && p(s[i]) && p(s[j])
    ensures Count(p, s) >= 2
  {
    assert s == s[..i] + ([s[i]] + s[i + 1..j] + ([s[j]] + s[j + 1..]));
    CountSplit(p, s[..i], [s[i]] + s[i + 1..j] + ([s[j]] + s[j + 1..]));
    CountSplit(p, [s[i]] + s[i + 1..j], [s[j]] + s[j + 1..]);
  }

  /** Counts of two lists related position by position. */
  lemma {:induction false} CountPointwise<S, T>(p: S -> bool, q: T -> bool, s: seq<S>, t: seq<T>)
    requires |s| == |t|
    requires forall i :: 0 <= i < |s| && p(s[i]) ==> q(t[i])
    ensures Count(p, s) <= Count(q, t)
  {
    if s != [] {
      forall i | 0 <= i < |s[1..]| && p(s[1..][i]) ensures q(t[1..][i]) {
        assert s[1..][i] == s[i + 1] && t[1..][i] == t[i + 1];
      }
      CountPointwise(p, q, s[1..], t[1..]);
    }
  }

  ghost predicate Distinct<T>(s: seq<T>) {
    forall i, j :: 0 <= i < j < |s| ==> s[i] != s[j]
  }

  lemma {:induction false} DistinctInsert<T>(leq: (T, T) -> bool, x: T, s: seq<T>)
    requires Distinct(s) && x !in s
    ensures Distinct(Insert(leq, x, s))
  {
    if s != [] && !leq(x, s[0]) {
      DistinctInsert(leq, x, s[1..]);
      SortedHasSame(leq, x, s[1..]);
      assert s[0] !in Insert(leq, x, s[1..]);
    }
  }

  lemma SortedHasSame<T>(leq: (T, T) -> bool, x: T, s: seq<T>)
    ensures forall y :: y in Insert(leq, x, s) <==> y == x || y in s
  {
    InsertKeepsElements(leq, x, s);
    forall y ensures y in Insert(leq, x, s) <==> y == x || y in s {
      assert y in Insert(leq, x, s) <==> y in multiset(Insert(leq, x, s));
      assert y in s <==> y in multiset(s);
    }
  }

  /** Sorting keeps the elements, and keeps them distinct. */
  lemma {:induction false} SortKeepsDistinct<T>(leq: (T, T) -> bool, s: seq<T>)
    ensures forall y :: y in Sort(leq, s) <==> y in s
    ensures Distinct(s) ==> Distinct(Sort(leq, s))
  {
    if s != [] {
      SortKeepsDistinct(leq, s[1..]);
      SortedHasSame(leq, s[0], Sort(leq, s[1..]));
      if Distinct(s) {
        DistinctInsert(leq, s[0], Sort(leq, s[1..]));
      }
    }
  }
}
