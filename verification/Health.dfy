/** Gateway heartbeats folded into one verdict per minute. */
module Health {
  import opened Common
  import opened Sorting

  const WINDOW_SECONDS: int := 60

  /** The minute a moment belongs to. Times are whole seconds since the epoch. */
  function WindowStart(at: int): int { at - at % WINDOW_SECONDS }

  function WindowEnd(start: int): int { start + WINDOW_SECONDS }

  /** A heartbeat; at is None when its time does not parse. */
  datatype Beat = Beat(at: Option<int>, seqNo: int, droppedTotal: int, arrivalsDroppedTotal: int) {
    function Lost(): int { droppedTotal + arrivalsDroppedTotal }
  }

  function SeqLeq(a: Beat, b: Beat): bool { a.seqNo <= b.seqNo }

  predicate InMinute(b: Beat, start: int) { b.at.Some? && WindowStart(b.at.value) == start }

  function BeatsIn(beats: seq<Beat>, start: int): seq<Beat> {
    if beats == [] then []
    else
      var last := beats[|beats| - 1];
      BeatsIn(beats[..|beats| - 1], start) + (if InMinute(last, start) then [last] else [])
  }

  /** Sixty heartbeats with consecutive numbers, and no record lost between the first and the last. */
  predicate FullyObserved(beats: seq<Beat>) {
    var s := Sort(SeqLeq, beats);
    && |s| == 60
    && (forall i :: 0 <= i < 60 ==> s[i].seqNo == s[0].seqNo + i)
    && Max(0, s[59].Lost() - s[0].Lost()) == 0
  }

  function NumberIs(k: int): Beat -> bool { (b: Beat) => b.seqNo == k }

  /** Sixty heartbeats numbered n to n + 59, no number twice, and the last lost no more than the first. */
  ghost predicate RunOfSixty(beats: seq<Beat>, n: int) {
    && |beats| == 60
    && (forall b :: b in beats ==> n <= b.seqNo < n + 60)
    && (forall k :: Count(NumberIs(k), beats) <= 1)
    && (forall b, c :: b in beats && c in beats && b.seqNo == n && c.seqNo == n + 59 ==>
          c.droppedTotal + c.arrivalsDroppedTotal <= b.droppedTotal + b.arrivalsDroppedTotal)
  }

  /** The verdict does not depend on the order in which the heartbeats came. */
  lemma FullyObservedExactly(beats: seq<Beat>)
    ensures FullyObserved(beats) <==> exists n :: RunOfSixty(beats, n)
  {
    if FullyObserved(beats) {
      ObservedIsRun(beats);
    }
    if n :| RunOfSixty(beats, n) {
      RunIsObserved(beats, n);
    }
  }

  lemma ObservedIsRun(beats: seq<Beat>)
    requires FullyObserved(beats)
    ensures RunOfSixty(beats, Sort(SeqLeq, beats)[0].seqNo)
  {
    var s := Sort(SeqLeq, beats);
    SortKeepsDistinct(SeqLeq, beats);
    hide Sort, Distinct, Count;
    forall k ensures Count(NumberIs(k), beats) <= 1 {
      CountAtMostOnce(NumberIs(k), s);
      SortKeepsCount(SeqLeq, NumberIs(k), beats);
    }
    forall b | b in beats ensures s[0].seqNo <= b.seqNo < s[0].seqNo + 60 && b == s[b.seqNo - s[0].seqNo] {
      assert b in s;
      var i :| 0 <= i < |s| && s[i] == b;
    }
  }

  lemma RunIsObserved(beats: seq<Beat>, n: int)
    requires RunOfSixty(beats, n)
    ensures FullyObserved(beats)
  {
    var s := Sort(SeqLeq, beats);
    SortKeepsDistinct(SeqLeq, beats);
    SortSorted(SeqLeq, beats);
    hide Sort, Distinct, Count;
    forall i, j | 0 <= i < j < 60 ensures s[i].seqNo < s[j].seqNo {
      if s[i].seqNo == s[j].seqNo {
        SortKeepsCount(SeqLeq, NumberIs(s[i].seqNo), beats);
        CountTwice(NumberIs(s[i].seqNo), s, i, j);
        assert false;
      }
    }
    forall i | 0 <= i < 60 ensures n <= s[i].seqNo < n + 60 {
      assert s[i] in s;
    }
    Increasing(s, n, 59);
    assert s[0] in s && s[59] in s;
  }

  /** Sixty increasing numbers in a range of sixty are the range. */
  lemma {:induction false} Increasing(s: seq<Beat>, n: int, last: nat)
    requires |s| == 60 && last < 60
    requires forall i, j :: 0 <= i < j < 60 ==> s[i].seqNo < s[j].seqNo
    requires forall i :: 0 <= i < 60 ==> n <= s[i].seqNo < n + 60
    ensures forall i :: 0 <= i <= last ==> s[i].seqNo >= n + i
    ensures last == 59 ==> forall i :: 0 <= i < 60 ==> s[i].seqNo == n + i
  {
    if last > 0 {
      Increasing(s, n, last - 1);
      assert s[last - 1].seqNo < s[last].seqNo;
    }
    if last == 59 {
      FromAbove(s, n, 0);
    }
  }

  lemma {:induction false} FromAbove(s: seq<Beat>, n: int, first: nat)
    requires |s| == 60 && first < 60
    requires forall i, j :: 0 <= i < j < 60 ==> s[i].seqNo < s[j].seqNo
    requires forall i :: 0 <= i < 60 ==> n <= s[i].seqNo < n + 60
    ensures forall i :: first <= i < 60 ==> s[i].seqNo <= n + i
    decreases 60 - first
  {
    if first < 59 {
      FromAbove(s, n, first + 1);
      assert s[first].seqNo < s[first + 1].seqNo;
    }
  }
}
