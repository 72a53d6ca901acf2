/** The median, and how far a minority of samples can move it. */
module Statistics {
  import opened Common
  import opened Sorting

  function Leq(x: real, y: real): bool { x <= y }

  lemma LeqTotal()
    ensures TotalOrder(Leq)
  {
  }

  /** statistics.median: the middle of the sorted data, or the mean of the two middle values. */
  function Median(s: seq<real>): real
    requires s != []
  {
    var t := Sort(Leq, s);
    var n := |t|;
    if n % 2 == 1 then t[n / 2] else (t[n / 2 - 1] + t[n / 2]) / 2.0
  }

  function Outside(low: real, high: real): real -> bool {
    x => x < low || high < x
  }

  function Deviations(s: seq<real>, centre: real): (d: seq<real>)
    ensures |d| == |s|
    ensures forall i :: 0 <= i < |s| ==> d[i] == Abs(s[i] - centre)
  {
    seq(|s|, i requires 0 <= i < |s| => Abs(s[i] - centre))
  }

  /** The median absolute deviation about the median. */
  function Mad(s: seq<real>): real
    requires s != []
  {
    Median(Deviations(s, Median(s)))
  }

  /** Fewer than half of the samples lie outside the interval, whatever their values. */
  ghost predicate MinorityOutside(s: seq<real>, low: real, high: real) {
    2 * Count(Outside(low, high), s) < |s|
  }

  /** In sorted data with a minority outside an interval, a middle element is inside it. */
  lemma MiddleInside(t: seq<real>, low: real, high: real, k: nat)
    requires SortedBy(Leq, t)
    requires (|t| - 1) / 2 <= k <= |t| / 2 && k < |t|
    requires MinorityOutside(t, low, high)
    ensures low <= t[k] <= high
  {
    var p := Outside(low, high);
    if t[k] < low {
      forall j | 0 <= j <= k ensures p(t[j]) {
        assert j < k ==> Leq(t[j], t[k]);
      }
      CountFromPrefix(p, t, k + 1);
    } else if high < t[k] {
      forall j | k <= j < |t| ensures p(t[j]) {
        assert k < j ==> Leq(t[k], t[j]);
      }
      CountFromSuffix(p, t, k);
    }
  }

  /** A minority of samples cannot pull the median out of the interval the others lie in. */
  lemma MedianRobust(s: seq<real>, low: real, high: real)
    requires s != []
    requires MinorityOutside(s, low, high)
    ensures low <= Median(s) <= high
  {
    var t := Sort(Leq, s);
    LeqTotal();
    SortSorted(Leq, s);
    SortKeepsCount(Leq, Outside(low, high), s);
    MiddleInside(t, low, high, |t| / 2);
    if |t| % 2 == 0 {
      MiddleInside(t, low, high, |t| / 2 - 1);
    }
  }

  lemma DeviationsRobust(s: seq<real>, low: real, high: real, centre: real)
    requires low <= centre <= high
    requires MinorityOutside(s, low, high)
    ensures MinorityOutside(Deviations(s, centre), 0.0, high - low)
  {
    CountPointwise(Outside(0.0, high - low), Outside(low, high), Deviations(s, centre), s);
  }

  /** The same minority cannot push the deviation past the width of that interval. */
  lemma MadRobust(s: seq<real>, low: real, high: real)
    requires s != []
    requires MinorityOutside(s, low, high)
    ensures 0.0 <= Mad(s) <= high - low
  {
    var centre := Median(s);
    MedianRobust(s, low, high);
    DeviationsRobust(s, low, high, centre);
    MedianRobust(Deviations(s, centre), 0.0, high - low);
  }

  /** The minority must be strict: with half of the samples free, the median follows them anywhere. */
  lemma HalfCanMoveTheMedian(low: real, high: real, target: real)
    requires low <= high < target
    ensures exists s: seq<real> :: s != [] && 2 * Count(Outside(low, high), s) == |s| && Median(s) == target
  {
    var far := 2.0 * target - low;
    var s := [low, far];
    assert Sort(Leq, s[1..]) == [far];
    assert Sort(Leq, s) == [low, far];
    assert Count(Outside(low, high), s[1..]) == 1;
    assert Count(Outside(low, high), s) == 1;
    assert Median(s) == target;
  }
}
