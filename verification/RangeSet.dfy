/** Sets of byte positions as sorted lists of intervals. */
module Ranges {
  import opened Base

  datatype ByteRange = ByteRange(start: int, end: int)

  predicate In(r: ByteRange, x: int) {
    r.start <= x < r.end
  }

  /** Position `x` is in one of the ranges. */
  ghost predicate Has(rs: seq<ByteRange>, x: int) {
    exists i :: 0 <= i < |rs| && In(rs[i], x)
  }

  /** No empty range; each ends before the next begins, with at least one position between them. */
  predicate Canonical(rs: seq<ByteRange>) {
    && (forall i :: 0 <= i < |rs| ==> rs[i].start < rs[i].end)
    && (forall i, j :: 0 <= i < j < |rs| ==> rs[i].end < rs[j].start)
  }

  /** `done` is the canonical form of `from`, and not empty. */
  ghost predicate Covers(done: seq<ByteRange>, from: seq<ByteRange>) {
    done != [] && Canonical(done) && forall x :: Has(done, x) <==> Has(from, x)
  }

  /** The positions of the ranges as a finite set. */
  ghost function Positions(rs: seq<ByteRange>): (s: set<int>)
    ensures forall x :: x in s <==> Has(rs, x)
  {
    if rs == [] then {}
    else
      var last := rs[|rs| - 1];
      HasSnoc(rs[..|rs| - 1], last);
      assert rs[..|rs| - 1] + [last] == rs;
      Positions(rs[..|rs| - 1]) + Interval(last.start, last.end)
  }

  lemma HasSnoc(rs: seq<ByteRange>, r: ByteRange)
    ensures forall x :: Has(rs + [r], x) <==> Has(rs, x) || In(r, x)
  {
    var all := rs + [r];
    forall x
      ensures Has(all, x) <==> Has(rs, x) || In(r, x)
    {
      if Has(rs, x) {
        var i :| 0 <= i < |rs| && In(rs[i], x);
        assert all[i] == rs[i];
      }
      if In(r, x) {
        assert all[|rs|] == r;
      }
    }
  }

  ghost function Interval(a: int, b: int): (s: set<int>)
    ensures forall x :: x in s <==> a <= x < b
    decreases b - a
  {
    if a >= b then {} else Interval(a, b - 1) + {b - 1}
  }

  lemma {:induction false} IntervalSize(a: int, b: int)
    requires a <= b
    ensures |Interval(a, b)| == b - a
    decreases b - a
  {
    if a < b {
      IntervalSize(a, b - 1);
    }
  }

  lemma CanonicalPrefix(rs: seq<ByteRange>, n: nat)
    requires Canonical(rs) && n <= |rs|
    ensures Canonical(rs[..n])
  {
  }

  /** The ranges of a canonical list are disjoint, so their lengths add up to the number of positions. */
  lemma SizeSnoc(rs: seq<ByteRange>)
    requires Canonical(rs) && rs != []
    ensures var last := rs[|rs| - 1];
            |Positions(rs)| == |Positions(rs[..|rs| - 1])| + last.end - last.start
  {
    var front, last := rs[..|rs| - 1], rs[|rs| - 1];
    forall x | x in Positions(front)
      ensures x < last.start
    {
      assert Has(front, x);
      var i :| 0 <= i < |front| && In(front[i], x);
      assert rs[i].end < rs[|rs| - 1].start;
    }
    IntervalSize(last.start, last.end);
    assert Positions(front) !! Interval(last.start, last.end);
  }

  lemma HasCons(rs: seq<ByteRange>)
    requires rs != []
    ensures forall x :: Has(rs, x) <==> In(rs[0], x) || Has(rs[1..], x)
  {
    forall x
      ensures Has(rs, x) <==> In(rs[0], x) || Has(rs[1..], x)
    {
      if Has(rs, x) {
        var i :| 0 <= i < |rs| && In(rs[i], x);
        assert i == 0 || rs[1..][i - 1] == rs[i];
      }
      if Has(rs[1..], x) {
        var i :| 0 <= i < |rs[1..]| && In(rs[1..][i], x);
        assert rs[i + 1] == rs[1..][i];
      }
    }
  }

  lemma LaterStarts(rs: seq<ByteRange>, x: int)
    requires Canonical(rs) && rs != [] && Has(rs[1..], x)
    ensures x > rs[0].end
  {
    var i :| 0 <= i < |rs[1..]| && In(rs[1..][i], x);
    assert rs[0].end < rs[i + 1].start;
  }

  /** The least position of a canonical list starts its first range, and the first gap ends it. */
  lemma FirstRange(rs: seq<ByteRange>)
    requires Canonical(rs) && rs != []
    ensures Has(rs, rs[0].start) && !Has(rs, rs[0].end)
    ensures forall x :: Has(rs, x) ==> rs[0].start <= x
    ensures forall x :: In(rs[0], x) ==> Has(rs, x)
  {
    HasCons(rs);
    assert In(rs[0], rs[0].start);
    forall x | Has(rs[1..], x)
      ensures x > rs[0].end
    {
      LaterStarts(rs, x);
    }
  }

  lemma SameFirst(a: seq<ByteRange>, b: seq<ByteRange>)
    requires Canonical(a) && Canonical(b) && a != [] && b != []
    requires forall x :: Has(a, x) <==> Has(b, x)
    ensures a[0] == b[0]
  {
    FirstRange(a);
    FirstRange(b);
    assert Has(b, a[0].start) && Has(a, b[0].start);
    assert !Has(b, a[0].end) && !Has(a, b[0].end);
    if a[0].end < b[0].end {
      assert In(b[0], a[0].end);
    } else if b[0].end < a[0].end {
      assert In(a[0], b[0].end);
    }
  }

  /** A set of positions has one canonical list. */
  lemma {:induction false} CanonicalIsUnique(a: seq<ByteRange>, b: seq<ByteRange>)
    requires Canonical(a) && Canonical(b) && forall x :: Has(a, x) <==> Has(b, x)
    ensures a == b
    decreases |a|
  {
    if a != [] {
      FirstRange(a);
      assert Has(b, a[0].start);
    }
    if b != [] {
      FirstRange(b);
      assert Has(a, b[0].start);
    }
    if a != [] && b != [] {
      SameFirst(a, b);
      forall x
        ensures Has(a[1..], x) <==> Has(b[1..], x)
      {
        TailHas(a, x);
        TailHas(b, x);
      }
      CanonicalIsUnique(a[1..], b[1..]);
      assert a == [a[0]] + a[1..] && b == [b[0]] + b[1..];
    }
  }

  lemma TailHas(rs: seq<ByteRange>, x: int)
    requires Canonical(rs) && rs != []
    ensures Has(rs[1..], x) <==> Has(rs, x) && x > rs[0].end
  {
    HasCons(rs);
    if Has(rs[1..], x) {
      LaterStarts(rs, x);
    }
  }

  lemma GapAfter(rs: seq<ByteRange>, i: nat)
    requires Canonical(rs) && i < |rs|
    ensures !Has(rs, rs[i].end)
  {
    forall k | 0 <= k < |rs|
      ensures !In(rs[k], rs[i].end)
    {
      assert k < i ==> rs[k].end < rs[i].start;
      assert i < k ==> rs[i].end < rs[k].start;
    }
  }

  /** A stretch of positions that are all present lies inside a single range. */
  lemma InsideOne(rs: seq<ByteRange>, i: nat, start: int, end: int)
    requires Canonical(rs) && i < |rs| && In(rs[i], start) && start < end
    requires forall x :: start <= x < end ==> Has(rs, x)
    ensures end <= rs[i].end
  {
    GapAfter(rs, i);
  }

  /** Only the one-range list, or none for the empty interval, denotes `[0, n)`. */
  lemma CompleteIff(rs: seq<ByteRange>, n: int)
    requires Canonical(rs)
    ensures (n >= 0 && forall x :: Has(rs, x) <==> 0 <= x < n)
            <==> if n == 0 then rs == [] else rs == [ByteRange(0, n)]
  {
    if n > 0 {
      HasSnoc([], ByteRange(0, n));
      assert [] + [ByteRange(0, n)] == [ByteRange(0, n)];
      if forall x :: Has(rs, x) <==> 0 <= x < n {
        CanonicalIsUnique(rs, [ByteRange(0, n)]);
      }
    } else if rs != [] {
      FirstRange(rs);
    }
  }
}

/** Sorting by start, as the merge needs it. */
module Sorting {
  import opened Ranges

  predicate SortedByStart(rs: seq<ByteRange>) {
    forall i, j :: 0 <= i < j < |rs| ==> rs[i].start <= rs[j].start
  }

  predicate AtMost(rs: seq<ByteRange>, bound: int) {
    forall i :: 0 <= i < |rs| ==> rs[i].start <= bound
  }

  predicate AtLeast(rs: seq<ByteRange>, bound: int) {
    forall i :: 0 <= i < |rs| ==> bound <= rs[i].start
  }

  function InsertAt(t: seq<ByteRange>, k: nat, r: ByteRange): seq<ByteRange>
    requires k <= |t|
  {
    t[..k] + ([r] + t[k..])
  }

  lemma SortedConcat(a: seq<ByteRange>, b: seq<ByteRange>, bound: int)
    requires SortedByStart(a) && SortedByStart(b) && AtMost(a, bound) && AtLeast(b, bound)
    ensures SortedByStart(a + b)
  {
  }

  lemma AtLeastConcat(r: ByteRange, b: seq<ByteRange>)
    requires AtLeast(b, r.start)
    ensures AtLeast([r] + b, r.start)
  {
  }

  /** Both parts of a sorted list are sorted, and lie on the two sides of the place between them. */
  lemma SortedSplit(t: seq<ByteRange>, k: nat, bound: int)
    requires SortedByStart(t) && k <= |t|
    requires (k > 0 ==> t[k - 1].start <= bound) && (k < |t| ==> bound <= t[k].start)
    ensures SortedByStart(t[..k]) && SortedByStart(t[k..]) && AtMost(t[..k], bound) && AtLeast(t[k..], bound)
  {
  }

  lemma InsertSorted(t: seq<ByteRange>, k: nat, r: ByteRange)
    requires SortedByStart(t) && k <= |t|
    requires (k > 0 ==> t[k - 1].start <= r.start) && (k < |t| ==> r.start <= t[k].start)
    ensures SortedByStart(InsertAt(t, k, r))
  {
    SortedSplit(t, k, r.start);
    SortedConcat([r], t[k..], r.start);
    AtLeastConcat(r, t[k..]);
    SortedConcat(t[..k], [r] + t[k..], r.start);
  }

  lemma InsertMembers(t: seq<ByteRange>, k: nat, r: ByteRange)
    requires k <= |t|
    ensures multiset(InsertAt(t, k, r)) == multiset(t) + multiset{r}
  {
    assert t == t[..k] + t[k..];
  }

  lemma PrefixMembers(rs: seq<ByteRange>, i: nat)
    requires i < |rs|
    ensures multiset(rs[..i + 1]) == multiset(rs[..i]) + multiset{rs[i]}
  {
    assert rs[..i + 1] == rs[..i] + [rs[i]];
  }

  lemma NextStart(t: seq<ByteRange>, i: nat)
    requires SortedByStart(t) && 0 < i < |t|
    ensures t[i - 1].start <= t[i].start
  {
  }
}

/** The interval set of an unaligned upload. */
module RangeSets {
  import opened Base
  import opened Ranges
  import opened Sorting

  /** Stands for sort.Slice; callers rely on its contract alone, so equal starts may come in either order. */
  method SortByStart(rs: seq<ByteRange>) returns (t: seq<ByteRange>)
    ensures SortedByStart(t) && multiset(t) == multiset(rs)
  {
    t := [];
    var i := 0;
    while i < |rs|
      invariant 0 <= i <= |rs| && SortedByStart(t) && multiset(t) == multiset(rs[..i])
    {
      var k := |t|;
      while k > 0 && t[k - 1].start > rs[i].start
        invariant 0 <= k <= |t| && (k < |t| ==> rs[i].start <= t[k].start)
      {
        k := k - 1;
      }
      InsertSorted(t, k, rs[i]);
      InsertMembers(t, k, rs[i]);
      PrefixMembers(rs, i);
      t := InsertAt(t, k, rs[i]);
      i := i + 1;
    }
    assert rs[..i] == rs;
  }

  lemma SameMembers(a: seq<ByteRange>, b: seq<ByteRange>)
    requires multiset(a) == multiset(b)
    ensures |a| == |b| && forall x :: Has(a, x) <==> Has(b, x)
    ensures (forall i :: 0 <= i < |a| ==> a[i].start < a[i].end) ==> forall i :: 0 <= i < |b| ==> b[i].start < b[i].end
  {
    assert |multiset(a)| == |a| && |multiset(b)| == |b|;
    forall x
      ensures Has(a, x) <==> Has(b, x)
    {
      if Has(a, x) {
        OneWay(a, b, x);
      }
      if Has(b, x) {
        OneWay(b, a, x);
      }
    }
    if forall i :: 0 <= i < |a| ==> a[i].start < a[i].end {
      forall i | 0 <= i < |b|
        ensures b[i].start < b[i].end
      {
        assert b[i] in multiset(b);
        assert b[i] in a;
      }
    }
  }

  lemma OneWay(a: seq<ByteRange>, b: seq<ByteRange>, x: int)
    requires multiset(a) == multiset(b) && Has(a, x)
    ensures Has(b, x)
  {
    var i :| 0 <= i < |a| && In(a[i], x);
    assert a[i] in multiset(a);
    assert a[i] in b;
  }

  /** The next range touches the last merged one, which grows to cover both. */
  lemma MergeTouching(done: seq<ByteRange>, r: ByteRange)
    requires Canonical(done) && done != [] && r.start < r.end
    requires done[|done| - 1].start <= r.start <= done[|done| - 1].end
    ensures var last := done[|done| - 1];
            var done' := done[|done| - 1 := ByteRange(last.start, Max(last.end, r.end))];
            Canonical(done') && forall x :: Has(done', x) <==> Has(done, x) || In(r, x)
  {
    var n := |done| - 1;
    var last := done[n];
    var grown := ByteRange(last.start, Max(last.end, r.end));
    var done' := done[n := grown];
    HasSnoc(done[..n], last);
    HasSnoc(done[..n], grown);
    assert done[..n] + [last] == done && done[..n] + [grown] == done';
    assert forall x :: In(grown, x) <==> In(last, x) || In(r, x);
  }

  /** The next range leaves a gap and starts a new one. */
  lemma MergeApart(done: seq<ByteRange>, r: ByteRange)
    requires Canonical(done) && done != [] && r.start < r.end && done[|done| - 1].end < r.start
    ensures Canonical(done + [r]) && forall x :: Has(done + [r], x) <==> Has(done, x) || In(r, x)
  {
    HasSnoc(done, r);
    var n := |done| - 1;
    forall i | 0 <= i < |done|
      ensures done[i].end < r.start
    {
      assert i == n || done[i].end < done[n].start;
    }
  }

  lemma NextIn(t: seq<ByteRange>, i: nat)
    requires i < |t|
    ensures forall x :: Has(t[..i + 1], x) <==> Has(t[..i], x) || In(t[i], x)
  {
    PrefixSnoc(t, i);
    HasSnoc(t[..i], t[i]);
  }

  lemma MergeFirst(t: seq<ByteRange>)
    requires t != [] && t[0].start < t[0].end
    ensures Covers(t[..1], t[..1])
  {
  }

  /** One turn of the merge loop, on values. */
  lemma MergeStep(done: seq<ByteRange>, t: seq<ByteRange>, i: nat)
    requires i < |t| && Covers(done, t[..i]) && done[|done| - 1].start <= t[i].start < t[i].end
    ensures var last := done[|done| - 1];
            var done' := if t[i].start <= last.end
                         then done[|done| - 1 := ByteRange(last.start, Max(last.end, t[i].end))]
                         else done + [t[i]];
            Covers(done', t[..i + 1])
  {
    NextIn(t, i);
    if t[i].start <= done[|done| - 1].end {
      MergeTouching(done, t[i]);
    } else {
      MergeApart(done, t[i]);
    }
  }

  /** One turn of the merge loop, in place: the result so far ends at `j`, the next range is at `i`. */
  method MergeTurn(a: array<ByteRange>, j: nat, i: nat, ghost t: seq<ByteRange>) returns (next: nat)
    requires j < i < a.Length && i < |t| && a[i] == t[i]
    requires a[j].start <= t[i].start < t[i].end && Covers(a[..j + 1], t[..i])
    modifies a
    ensures j <= next <= i && a[next].start <= t[i].start
    ensures Covers(a[..next + 1], t[..i + 1])
    ensures a[i + 1..] == old(a[i + 1..])
  {
    ghost var done := a[..j + 1];
    MergeStep(done, t, i);
    if a[i].start <= a[j].end {
      if a[i].end > a[j].end {
        a[j] := ByteRange(a[j].start, a[i].end);
      }
      assert a[..j + 1] == done[j := ByteRange(done[j].start, Max(done[j].end, t[i].end))];
      next := j;
    } else {
      next := j + 1;
      a[next] := a[i];
      assert a[..next + 1] == done + [t[i]];
    }
  }

  /** The in-place merge: `a` holds sorted ranges on entry, and in its first `m` places the result. */
  method MergeInPlace(a: array<ByteRange>) returns (m: nat)
    requires a.Length >= 1 && SortedByStart(a[..])
    requires forall i :: 0 <= i < a.Length ==> a[i].start < a[i].end
    modifies a
    ensures m <= a.Length && Covers(a[..m], old(a[..]))
  {
    ghost var t := a[..];
    var j := 0;
    var i := 1;
    MergeFirst(t);
    assert a[..1] == t[..1];
    while i < a.Length
      invariant 0 <= j < i <= a.Length && a[i..] == t[i..]
      invariant a[j].start <= t[i - 1].start && Covers(a[..j + 1], t[..i])
    {
      NextStart(t, i);
      assert a[i] == a[i..][0] && t[i] == t[i..][0];
      j := MergeTurn(a, j, i, t);
      assert a[i + 1..] == t[i + 1..];
      i := i + 1;
    }
    assert t[..i] == t;
    m := j + 1;
  }

  class RangeSet {
    var ranges: seq<ByteRange>

    ghost predicate Valid()
      reads this
    {
      Canonical(ranges)
    }

    constructor ()
      ensures Valid() && ranges == []
    {
      ranges := [];
    }

    /** Add: the set grows by exactly the given interval, and its list stays canonical. */
    method Add(start: int, end: int)
      requires Valid()
      modifies this
      ensures Valid()
      ensures forall x :: Has(ranges, x) <==> Has(old(ranges), x) || start <= x < end
    {
      if start >= end {
        return;
      }
      ghost var before := ranges;
      var added := ByteRange(start, end);
      ranges := ranges + [added];
      HasSnoc(before, added);
      var n := |ranges|;
      if n == 1 {
        return;
      }
      var sorted := SortByStart(ranges);
      SameMembers(ranges, sorted);
      var a := new ByteRange[n](i requires 0 <= i < n => sorted[i]);
      assert a[..] == sorted;
      var m := MergeInPlace(a);
      ranges := a[..m];
    }

    /** TotalBytes: the number of positions in the set. */
    method TotalBytes() returns (total: int)
      requires Valid()
      ensures total == |Positions(ranges)|
    {
      total := 0;
      var i := 0;
      while i < |ranges|
        invariant 0 <= i <= |ranges| && total == |Positions(ranges[..i])|
      {
        CanonicalPrefix(ranges, i + 1);
        PrefixSnoc(ranges, i);
        SizeSnoc(ranges[..i + 1]);
        total := total + (ranges[i].end - ranges[i].start);
        i := i + 1;
      }
      assert ranges[..i] == ranges;
    }

    /** IsComplete: the set is exactly `[0, expectedSize)`. */
    method IsComplete(expectedSize: int) returns (complete: bool)
      requires Valid()
      ensures complete <==> expectedSize >= 0 && forall x :: Has(ranges, x) <==> 0 <= x < expectedSize
    {
      CompleteIff(ranges, expectedSize);
      if expectedSize == 0 {
        complete := |ranges| == 0;
      } else {
        complete := |ranges| == 1 && ranges[0].start == 0 && ranges[0].end == expectedSize;
        assert complete <==> ranges == [ByteRange(0, expectedSize)];
      }
    }

    /**
     Contains: every position of the interval is in the set. An empty interval counts
     as contained only where a range surrounds it.
     */
    method Contains(start: int, end: int) returns (r: bool)
      requires Valid()
      ensures start < end ==> (r <==> forall x :: start <= x < end ==> Has(ranges, x))
      ensures start >= end ==> (r <==> exists k :: 0 <= k < |ranges| && ranges[k].start <= start && end <= ranges[k].end)
    {
      var i := 0;
      while i < |ranges|
        invariant 0 <= i <= |ranges|
        invariant forall k :: 0 <= k < i ==> !(ranges[k].start <= start && end <= ranges[k].end)
      {
        if start >= ranges[i].start && end <= ranges[i].end {
          assert forall x :: start <= x < end ==> In(ranges[i], x);
          return true;
        }
        i := i + 1;
      }
      if start < end && forall x :: start <= x < end ==> Has(ranges, x) {
        assert Has(ranges, start);
        var k :| 0 <= k < |ranges| && In(ranges[k], start);
        InsideOne(ranges, k, start, end);
      }
      return false;
    }
  }
}
