/** Runs of consecutive numbers among identifiers. */
module ConsecutiveRun {
  import opened Common
  import opened Sorting

  const TWO_63: int := 0x8000_0000_0000_0000
  const TWO_64: int := 0x1_0000_0000_0000_0000

  predicate InInt64(n: int) { -TWO_63 <= n < TWO_63 }

  /** Subtraction on 64-bit integers. */
  function Sub64(a: int, b: int): int { (a - b + TWO_63) % TWO_64 - TWO_63 }

  /** Overflow never makes two sorted numbers look equal or adjacent. */
  lemma SubtractionTells(a: int, b: int)
    requires InInt64(a) && InInt64(b) && b <= a
    ensures Sub64(a, b) == 0 <==> a == b
    ensures Sub64(a, b) == 1 <==> a == b + 1
  {
    if a - b < TWO_63 {
      assert Sub64(a, b) == a - b;
    } else {
      assert (a - b + TWO_63) % TWO_64 == a - b + TWO_63 - TWO_64;
    }
  }

  predicate IsDigit(c: char) { '0' <= c <= '9' }

  function Digits(s: string): Option<nat> {
    if s == "" then Some(0)
    else if !IsDigit(s[|s| - 1]) then None
    else
      match Digits(s[..|s| - 1])
      case None => None
      case Some(n) => Some(10 * n + (s[|s| - 1] as int - '0' as int))
  }

  /** strconv.Atoi: an optional sign and at least one digit, within 64 bits. */
  function Atoi(s: string): (r: Option<int>)
    ensures r.Some? ==> InInt64(r.value)
  {
    var digits := if s != "" && (s[0] == '-' || s[0] == '+') then s[1..] else s;
    var n := Digits(digits);
    if digits == "" || n.None? then None
    else
      var value: int := if s[0] == '-' then 0 - n.value else n.value;
      if InInt64(value) then Some(value) else None
  }

  // ---- What a text spells -------------------------------------------------

  function DigitOf(c: char): nat {
    match c
    case '1' => 1 case '2' => 2 case '3' => 3 case '4' => 4 case '5' => 5
    case '6' => 6 case '7' => 7 case '8' => 8 case '9' => 9 case _ => 0
  }

  function Pow10(n: nat): nat { if n == 0 then 1 else 10 * Pow10(n - 1) }

  /** The number that digits spell, place by place. */
  function PlaceValue(s: string): nat {
    if s == "" then 0 else DigitOf(s[0]) * Pow10(|s| - 1) + PlaceValue(s[1..])
  }

  ghost predicate AllDigits(s: string) { forall i :: 0 <= i < |s| ==> s[i] in "0123456789" }

  /** An optional sign before at least one digit, and a number that fits into 64 bits. */
  ghost predicate Spells(s: string, n: int) {
    -9223372036854775808 <= n <= 9223372036854775807
    && exists sign: string, digits: string :: SpellsAs(s, n, sign, digits)
  }

  ghost predicate SpellsAs(s: string, n: int, sign: string, digits: string) {
    && s == sign + digits && digits != "" && AllDigits(digits)
    && ((sign == "-" && n + PlaceValue(digits) == 0) || (sign in {"", "+"} && n == PlaceValue(digits)))
  }

  lemma DigitsOnly(c: char)
    ensures IsDigit(c) <==> c in "0123456789"
    ensures IsDigit(c) ==> c as int - '0' as int == DigitOf(c)
  {
  }

  lemma {:induction false} OneMorePlace(s: string, c: char)
    ensures PlaceValue(s + [c]) == 10 * PlaceValue(s) + DigitOf(c)
  {
    var more := s + [c];
    if s == "" {
      assert more[1..] == "" && Pow10(0) == 1;
    } else {
      assert more[1..] == s[1..] + [c];
      OneMorePlace(s[1..], c);
      OnePlaceUp(DigitOf(s[0]), |s|);
    }
  }

  lemma OnePlaceUp(d: nat, n: nat)
    requires n > 0
    ensures d * Pow10(n) == 10 * (d * Pow10(n - 1))
  {
  }

  lemma {:induction false} DigitsExactly(s: string)
    ensures Digits(s).Some? <==> AllDigits(s)
    ensures Digits(s).Some? ==> Digits(s).value == PlaceValue(s)
  {
    hide PlaceValue, IsDigit, DigitOf;
    if s == "" {
      NothingSpelled();
    } else {
      var front, c := s[..|s| - 1], s[|s| - 1];
      assert s == front + [c];
      DigitsExactly(front);
      DigitsOnly(c);
      OneMorePlace(front, c);
    }
  }

  lemma NothingSpelled()
    ensures PlaceValue("") == 0
  {
  }

  /** Exactly the texts that spell a 64-bit number are read, and as that number. */
  lemma AtoiExactly(s: string, n: int)
    ensures Atoi(s) == Some(n) <==> Spells(s, n)
  {
    hide Digits, PlaceValue, AllDigits;
    var signed := s != "" && (s[0] == '-' || s[0] == '+');
    var sign, digits := if signed then s[..1] else "", if signed then s[1..] else s;
    DigitsExactly(digits);
    assert s == sign + digits && (signed ==> sign == [s[0]]);
    if Atoi(s) == Some(n) {
      assert SpellsAs(s, n, sign, digits);
    }
    forall g: string, d: string | SpellsAs(s, n, g, d) ensures g == sign && d == digits {
      FirstIsDigit(d);
      assert s == g + d;
      assert g == "" ==> s[0] == d[0];
      assert g != "" ==> s[0] == g[0] && s[1..] == d;
    }
  }

  lemma FirstIsDigit(s: string)
    requires s != "" && AllDigits(s)
    ensures s[0] != '-' && s[0] != '+'
  {
  }

  /** The numbers among the identifiers. */
  function Numbers(ids: seq<string>): (r: seq<int>)
    ensures forall i :: 0 <= i < |r| ==> InInt64(r[i])
  {
    if ids == [] then []
    else Numbers(ids[..|ids| - 1]) + (if Atoi(ids[|ids| - 1]).Some? then [Atoi(ids[|ids| - 1]).value] else [])
  }

  lemma {:induction false} NumbersExactly(ids: seq<string>, n: int)
    ensures n in Numbers(ids) <==> exists i :: 0 <= i < |ids| && Spells(ids[i], n)
  {
    if ids != [] {
      var last := |ids| - 1;
      NumbersExactly(ids[..last], n);
      AtoiExactly(ids[last], n);
      hide Atoi, Spells;
      assert forall i :: 0 <= i < last ==> ids[..last][i] == ids[i];
    }
  }

  ghost predicate HasRun(numbers: seq<int>, n: int, k: int) {
    forall j :: n <= j < n + k ==> j in numbers
  }

  /** k is the length of a run n, n + 1, ..., and there is none longer. */
  ghost predicate LongestRun(numbers: seq<int>, k: int) {
    && (exists n :: HasRun(numbers, n, k))
    && (forall n, j :: HasRun(numbers, n, j) ==> j <= k)
  }

  /** The greatest number ends a run of this length and no more. */
  ghost predicate RunEnds(p: seq<int>, current: int)
    requires p != []
  {
    HasRun(p, p[|p| - 1] - current + 1, current) && p[|p| - 1] - current !in p
  }

  ghost predicate Ascending(p: seq<int>) { forall i, j :: 0 <= i < j < |p| ==> p[i] <= p[j] }

  ghost predicate RunState(p: seq<int>, current: int, longest: int)
    requires p != []
  {
    && 1 <= current <= longest
    && RunEnds(p, current)
    && LongestRun(p, longest)
  }

  function IntLeq(a: int, b: int): bool { a <= b }

  lemma OneNumber(x: int)
    ensures RunState([x], 1, 1)
  {
    assert HasRun([x], x, 1);
    forall n, j | HasRun([x], n, j) ensures j <= 1 {
      assert j >= 2 ==> n in [x] && n + 1 in [x];
    }
  }

  lemma AtMostLast(p: seq<int>, y: int)
    requires p != [] && Ascending(p) && y in p
    ensures y <= p[|p| - 1]
  {
    var i :| 0 <= i < |p| && p[i] == y;
  }

  lemma RepeatedNumber(p: seq<int>, current: int, longest: int)
    requires p != [] && RunState(p, current, longest)
    ensures RunState(p + [p[|p| - 1]], current, longest)
  {
    var more := p + [p[|p| - 1]];
    assert forall y :: y in more <==> y in p;
    assert forall n, k :: HasRun(more, n, k) <==> HasRun(p, n, k);
  }

  /** A run among p and one greater number x lies in p, or ends in x. */
  lemma RunInMore(p: seq<int>, x: int, n: int, k: int)
    requires p != [] && Ascending(p) && x > p[|p| - 1] && k >= 1 && HasRun(p + [x], n, k)
    ensures HasRun(p, n, k) || (n + k - 1 == x && HasRun(p, n, k - 1))
  {
    assert n + k - 1 in p + [x];
    if n + k - 1 != x {
      AtMostLast(p, n + k - 1);
    }
    assert forall j :: j in p + [x] && j != x ==> j in p;
  }

  lemma NextNumber(p: seq<int>, current: int, longest: int)
    requires p != [] && Ascending(p) && RunState(p, current, longest)
    ensures RunState(p + [p[|p| - 1] + 1], current + 1, Max(longest, current + 1))
  {
    var last := p[|p| - 1];
    var x := last + 1;
    var more := p + [x];
    forall j | last - current + 1 <= j < x + 1 ensures j in more {
      assert j == x || j in p;
    }
    assert HasRun(more, last - current + 1, current + 1);
    forall n, k | HasRun(more, n, k) ensures k <= Max(longest, current + 1) {
      if k >= 1 {
        RunInMore(p, x, n, k);
        assert !HasRun(p, n, k) && k > current + 1 ==> last - current in p;
      }
    }
    var n :| HasRun(p, n, longest);
    assert HasRun(more, n, longest);
  }

  lemma FarNumber(p: seq<int>, x: int, current: int, longest: int)
    requires p != [] && Ascending(p) && RunState(p, current, longest) && x > p[|p| - 1] + 1
    ensures RunState(p + [x], 1, longest)
  {
    var more := p + [x];
    assert HasRun(more, x, 1);
    if x - 1 in more {
      AtMostLast(p, x - 1);
    }
    forall n, k | HasRun(more, n, k) ensures k <= longest {
      if k >= 1 {
        RunInMore(p, x, n, k);
        assert !HasRun(p, n, k) && k >= 2 ==> x - 1 in p;
      }
    }
    var n :| HasRun(p, n, longest);
    assert HasRun(more, n, longest);
  }

  method LongestConsecutiveRun(ids: seq<string>) returns (longest: nat)
    ensures LongestRun(Numbers(ids), longest)
  {
    var numbers := ReadNumbers(ids);
    if |numbers| == 0 {
      NoNumbers();
      return 0;
    }
    var sorted := SortNumbers(numbers);
    forall i | 0 <= i < |sorted| ensures InInt64(sorted[i]) {
      assert sorted[i] in sorted;
    }
    longest := ScanRuns(sorted);
    SameRuns(numbers, sorted, longest);
  }

  method ReadNumbers(ids: seq<string>) returns (numbers: seq<int>)
    ensures numbers == Numbers(ids)
  {
    hide Atoi;
    numbers := [];
    for i := 0 to |ids|
      invariant numbers == Numbers(ids[..i])
    {
      assert ids[..i + 1][..i] == ids[..i];
      var n := Atoi(ids[i]);
      if n.Some? {
        numbers := numbers + [n.value];
      }
    }
    assert ids[..|ids|] == ids;
  }

  method SortNumbers(numbers: seq<int>) returns (sorted: seq<int>)
    ensures Ascending(sorted) && |sorted| == |numbers| && forall n :: n in sorted <==> n in numbers
  {
    sorted := Sort(IntLeq, numbers);
    SortSorted(IntLeq, numbers);
    SortKeepsDistinct(IntLeq, numbers);
  }

  method ScanRuns(numbers: seq<int>) returns (longest: nat)
    requires numbers != [] && Ascending(numbers) && forall i :: 0 <= i < |numbers| ==> InInt64(numbers[i])
    ensures LongestRun(numbers, longest)
  {
    longest := 1;
    var current := 1;
    OneNumber(numbers[0]);
    assert numbers[..1] == [numbers[0]];
    hide LongestRun, RunEnds, Sub64;
    for i := 1 to |numbers|
      invariant RunState(numbers[..i], current, longest)
    {
      ghost var p := numbers[..i];
      assert p[|p| - 1] == numbers[i - 1] && numbers[..i + 1] == p + [numbers[i]];
      SubtractionTells(numbers[i], numbers[i - 1]);
      var step := Sub64(numbers[i], numbers[i - 1]);
      if step == 0 {
        RepeatedNumber(p, current, longest);
      } else if step == 1 {
        NextNumber(p, current, longest);
        current := current + 1;
        longest := Max(longest, current);
      } else {
        FarNumber(p, numbers[i], current, longest);
        current := 1;
      }
    }
    assert numbers[..|numbers|] == numbers;
  }

  lemma NoNumbers()
    ensures LongestRun([], 0)
  {
    assert HasRun([], 0, 0);
    forall n, k | HasRun([], n, k) ensures k <= 0 {
      assert k >= 1 ==> n in [];
    }
  }

  /** Neither the order of the numbers nor their repetition matters. */
  lemma SameRuns(numbers: seq<int>, others: seq<int>, k: int)
    requires forall n :: n in numbers <==> n in others
    ensures LongestRun(numbers, k) <==> LongestRun(others, k)
  {
    assert forall n, j :: HasRun(numbers, n, j) <==> HasRun(others, n, j);
  }

  lemma OneLongest(numbers: seq<int>, k: int, k': int)
    requires LongestRun(numbers, k) && LongestRun(numbers, k')
    ensures k == k'
  {
  }
}
