/** Interval checks used when a tariff is validated: sparkmeter/misc/intervalutils.py. */
module Intervals {
  import opened Wrappers

  // A half-open interval [start, end) of integers.
  datatype Interval = Interval(start: int, end: int)

  datatype Overlap = Overlap(first: Interval, second: Interval)

  predicate Overlaps(a: Interval, b: Interval) {
    a.end > b.start && b.end > a.start
  }

  predicate Contains(a: Interval, k: int) {
    a.start <= k < a.end
  }

  // Python's set(range(start, end)).
  function Range(a: Interval): set<int> {
    set k | a.start <= k < a.end && Contains(a, k)
  }

  predicate Proper(intervals: seq<Interval>) {
    forall a <- intervals :: a.start < a.end
  }

  predicate Within(intervals: seq<Interval>, imin: int, imax: int) {
    forall a <- intervals :: imin <= a.start && a.end <= imax
  }

  predicate Disjoint(intervals: seq<Interval>) {
    forall i, j :: 0 <= i < j < |intervals| ==> !Overlaps(intervals[i], intervals[j])
  }

  predicate Covers(intervals: seq<Interval>, imin: int, imax: int) {
    forall k :: imin <= k < imax ==> Covered(intervals, k)
  }

  predicate Covered(intervals: seq<Interval>, k: int) {
    exists a <- intervals :: Contains(a, k)
  }

  // The order in which Python sorts two (start, end) tuples.
  predicate TupleLessEqual(a: Interval, b: Interval) {
    a.start < b.start || (a.start == b.start && a.end <= b.end)
  }

  function Ordered(a: Interval, b: Interval): Overlap {
    if TupleLessEqual(a, b) then Overlap(a, b) else Overlap(b, a)
  }

  // Whether (i, j) comes before (p, q) in itertools.combinations order.
  predicate PairBefore(i: int, j: int, p: int, q: int) {
    i < p || (i == p && j < q)
  }

  ghost predicate IsFirstOverlap(intervals: seq<Interval>, overlap: Overlap) {
    exists p, q :: 0 <= p < q < |intervals|
                   && Overlaps(intervals[p], intervals[q])
                   && overlap == Ordered(intervals[p], intervals[q])
                   && (forall i, j :: 0 <= i < j < |intervals| && PairBefore(i, j, p, q)
                                      ==> !Overlaps(intervals[i], intervals[j]))
  }

  /** The first overlapping pair in combination order, smaller tuple first; None if there is none. */
  method CheckIntervalsOverlap(intervals: seq<Interval>) returns (r: Option<Overlap>)
    ensures r.None? <==> Disjoint(intervals)
    ensures r.Some? ==> IsFirstOverlap(intervals, r.value)
  {
    for p := 0 to |intervals|
      invariant forall i, j :: 0 <= i < p && i < j < |intervals| ==> !Overlaps(intervals[i], intervals[j])
    {
      for q := p + 1 to |intervals|
        invariant forall j :: p < j < q ==> !Overlaps(intervals[p], intervals[j])
      {
        if Overlaps(intervals[p], intervals[q]) {
          return Some(Ordered(intervals[p], intervals[q]));
        }
      }
    }
    return None;
  }

  /** The integers of [imin, imax) that no interval contains. */
  method CheckIntervalsGap(intervals: seq<Interval>, imin: int, imax: int) returns (gaps: set<int>)
    ensures forall k :: k in gaps <==> imin <= k < imax && !Covered(intervals, k)
    ensures gaps == {} <==> Covers(intervals, imin, imax)
  {
    gaps := Range(Interval(imin, imax));
    for i := 0 to |intervals|
      invariant forall k :: k in gaps <==> imin <= k < imax && forall j :: 0 <= j < i ==> !Contains(intervals[j], k)
    {
      gaps := gaps - Range(intervals[i]);
    }
    assert forall k :: imin <= k < imax && k !in gaps ==> Covered(intervals, k);
  }

  // How many of the intervals contain k.
  function Multiplicity(intervals: seq<Interval>, k: int): nat {
    if intervals == [] then 0
    else Multiplicity(intervals[1..], k) + if Contains(intervals[0], k) then 1 else 0
  }

  predicate Partition(intervals: seq<Interval>, imin: int, imax: int) {
    forall k :: imin <= k < imax ==> Multiplicity(intervals, k) == 1
  }

  function TotalLength(intervals: seq<Interval>): int {
    if intervals == [] then 0
    else intervals[0].end - intervals[0].start + TotalLength(intervals[1..])
  }

  lemma {:induction false} MultiplicityPositive(intervals: seq<Interval>, k: int)
    ensures Multiplicity(intervals, k) > 0 <==> Covered(intervals, k)
  {
    if intervals != [] {
      MultiplicityPositive(intervals[1..], k);
      assert intervals == [intervals[0]] + intervals[1..];
      if Contains(intervals[0], k) {
        assert intervals[0] in intervals;
      }
    }
  }

  lemma {:induction false} DisjointMultiplicity(intervals: seq<Interval>, k: int)
    requires Disjoint(intervals)
    ensures Multiplicity(intervals, k) <= 1
  {
    if intervals != [] {
      var rest := intervals[1..];
      assert Disjoint(rest) by {
        forall i, j | 0 <= i < j < |rest| ensures !Overlaps(rest[i], rest[j]) {
          assert !Overlaps(intervals[i + 1], intervals[j + 1]);
        }
      }
      DisjointMultiplicity(rest, k);
      if Contains(intervals[0], k) {
        forall j | 0 <= j < |rest| ensures !Contains(rest[j], k) {
          assert !Overlaps(intervals[0], intervals[j + 1]);
        }
      }
      MultiplicityPositive(rest, k);
    }
  }

  // Two positions that both contain k make its multiplicity at least two.
  lemma {:induction false} TwoContaining(intervals: seq<Interval>, i: nat, j: nat, k: int)
    requires i < j < |intervals| && Contains(intervals[i], k) && Contains(intervals[j], k)
    ensures Multiplicity(intervals, k) >= 2
  {
    var rest := intervals[1..];
    if i == 0 {
      assert rest[j - 1] in rest;
      MultiplicityPositive(rest, k);
    } else {
      TwoContaining(rest, i - 1, j - 1, k);
    }
  }

  /** "No overlap" and "no gap" together mean that each integer of the range lies in exactly one interval. */
  lemma NoOverlapNoGapIsPartition(intervals: seq<Interval>, imin: int, imax: int)
    requires Proper(intervals) && Within(intervals, imin, imax)
    ensures Disjoint(intervals) && Covers(intervals, imin, imax) <==> Partition(intervals, imin, imax)
  {
    if Disjoint(intervals) && Covers(intervals, imin, imax) {
      DisjointCoverIsPartition(intervals, imin, imax);
    }
    if Partition(intervals, imin, imax) {
      forall k | imin <= k < imax ensures Covered(intervals, k) {
        MultiplicityPositive(intervals, k);
      }
      forall i, j | 0 <= i < j < |intervals| ensures !Overlaps(intervals[i], intervals[j]) {
        var a, b := intervals[i], intervals[j];
        if Overlaps(a, b) {
          assert a in intervals && b in intervals;
          var k := if a.start < b.start then b.start else a.start;
          TwoContaining(intervals, i, j, k);
          assert false;
        }
      }
    }
  }

  // This half also holds when intervals reach outside the range.
  lemma DisjointCoverIsPartition(intervals: seq<Interval>, imin: int, imax: int)
    requires Disjoint(intervals) && Covers(intervals, imin, imax)
    ensures Partition(intervals, imin, imax)
  {
    forall k | imin <= k < imax ensures Multiplicity(intervals, k) == 1 {
      DisjointMultiplicity(intervals, k);
      MultiplicityPositive(intervals, k);
    }
  }

  // Sum of the multiplicities over [lo, hi): each interval counted once per integer.
  function CountAll(intervals: seq<Interval>, lo: int, hi: int): nat
    decreases hi - lo
  {
    if lo >= hi then 0 else Multiplicity(intervals, hi - 1) + CountAll(intervals, lo, hi - 1)
  }

  lemma {:induction false} CountAllSplits(intervals: seq<Interval>, lo: int, hi: int)
    requires intervals != [] && lo <= hi
    requires lo <= intervals[0].start <= intervals[0].end
    ensures CountAll(intervals, lo, hi) == CountAll(intervals[1..], lo, hi) +
            if hi <= intervals[0].start then 0
            else if hi <= intervals[0].end then hi - intervals[0].start
            else intervals[0].end - intervals[0].start
    decreases hi - lo
  {
    if lo < hi {
      CountAllSplits(intervals, lo, hi - 1);
    }
  }

  lemma {:induction false} CountAllIsTotalLength(intervals: seq<Interval>, imin: int, imax: int)
    requires imin <= imax && Proper(intervals) && Within(intervals, imin, imax)
    ensures CountAll(intervals, imin, imax) == TotalLength(intervals)
  {
    if intervals == [] {
      CountNothing(imin, imax);
    } else {
      assert intervals[0] in intervals;
      CountAllSplits(intervals, imin, imax);
      CountAllIsTotalLength(intervals[1..], imin, imax);
    }
  }

  lemma {:induction false} CountNothing(lo: int, hi: int)
    ensures CountAll([], lo, hi) == 0
    decreases hi - lo
  {
    if lo < hi { CountNothing(lo, hi - 1); }
  }

  lemma {:induction false} CountOnes(intervals: seq<Interval>, lo: int, hi: int)
    requires lo <= hi && Partition(intervals, lo, hi)
    ensures CountAll(intervals, lo, hi) == hi - lo
    decreases hi - lo
  {
    if lo < hi { CountOnes(intervals, lo, hi - 1); }
  }

  /** The intervals of a partition add up to the length of the range. */
  lemma PartitionLengths(intervals: seq<Interval>, imin: int, imax: int)
    requires imin <= imax && Proper(intervals) && Within(intervals, imin, imax)
    requires Disjoint(intervals) && Covers(intervals, imin, imax)
    ensures TotalLength(intervals) == imax - imin
  {
    DisjointCoverIsPartition(intervals, imin, imax);
    CountAllIsTotalLength(intervals, imin, imax);
    CountOnes(intervals, imin, imax);
  }
}
