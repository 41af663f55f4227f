/**
 A file of `e[|e| - 1]` bytes cut at the boundaries `e` into blocks, some of them
 marked: how many bytes that is, and which ranges.
 */
module BlockMarks {
  import opened Base
  import opened Ranges

  /** Boundaries start at 0 and grow strictly. */
  predicate Boundaries(e: seq<int>) {
    && |e| >= 1 && e[0] == 0
    && forall i, j :: 0 <= i < j < |e| ==> e[i] < e[j]
  }

  predicate Cut(m: seq<bool>, e: seq<int>) {
    Boundaries(e) && |e| == |m| + 1
  }

  /** The lengths of the marked blocks among the first `n`. */
  function MarkedBytes(m: seq<bool>, e: seq<int>, n: nat): int
    requires Cut(m, e) && n <= |m|
  {
    if n == 0 then 0 else MarkedBytes(m, e, n - 1) + if m[n - 1] then e[n] - e[n - 1] else 0
  }

  /** Position `x` is in a marked block among the first `n`. */
  ghost predicate InMarked(m: seq<bool>, e: seq<int>, n: nat, x: int)
    requires Cut(m, e) && n <= |m|
  {
    exists k :: 0 <= k < n && m[k] && e[k] <= x < e[k + 1]
  }

  predicate AllMarked(m: seq<bool>) {
    forall k :: 0 <= k < |m| ==> m[k]
  }

  function SumLengths(rs: seq<ByteRange>): int {
    if rs == [] then 0 else SumLengths(rs[..|rs| - 1]) + rs[|rs| - 1].end - rs[|rs| - 1].start
  }

  ghost predicate SamePositions(m: seq<bool>, e: seq<int>, i: nat, rs: seq<ByteRange>, start: int)
    requires Cut(m, e) && i <= |m|
  {
    forall x :: InMarked(m, e, i, x) <==> Has(rs, x) || (start != -1 && start <= x < e[i])
  }

  /** The ranges closed so far and the one still open at `start`, after the first `i` blocks. */
  ghost predicate Scanned(m: seq<bool>, e: seq<int>, i: nat, rs: seq<ByteRange>, start: int)
    requires Cut(m, e) && i <= |m|
  {
    && Canonical(rs)
    && (start == -1 || 0 <= start < e[i])
    && (start != -1 && rs != [] ==> rs[|rs| - 1].end < start)
    && (start == -1 && rs != [] ==> i > 0 && rs[|rs| - 1].end <= e[i - 1])
    && SamePositions(m, e, i, rs, start)
    && SumLengths(rs) + (if start == -1 then 0 else e[i] - start) == MarkedBytes(m, e, i)
  }

  /** What the scan is for: canonical ranges of exactly the marked blocks, and their total length. */
  ghost predicate Describes(rs: seq<ByteRange>, m: seq<bool>, e: seq<int>)
    requires Cut(m, e)
  {
    && Canonical(rs)
    && SamePositions(m, e, |m|, rs, -1)
    && |Positions(rs)| == MarkedBytes(m, e, |m|)
  }
}

module Blocks {
  import opened Base
  import opened Ranges
  import opened BlockMarks

  lemma {:induction false} SumIsSize(rs: seq<ByteRange>)
    requires Canonical(rs)
    ensures SumLengths(rs) == |Positions(rs)|
    decreases |rs|
  {
    if rs != [] {
      CanonicalPrefix(rs, |rs| - 1);
      SumIsSize(rs[..|rs| - 1]);
      SizeSnoc(rs);
    }
  }

  lemma InMarkedNext(m: seq<bool>, e: seq<int>, n: nat, x: int)
    requires Cut(m, e) && n < |m|
    ensures InMarked(m, e, n + 1, x) <==> InMarked(m, e, n, x) || (m[n] && e[n] <= x < e[n + 1])
  {
  }

  /** The marked bytes are all bytes exactly if every block is marked. */
  lemma {:induction false} AllBytesIff(m: seq<bool>, e: seq<int>, n: nat)
    requires Cut(m, e) && n <= |m|
    ensures MarkedBytes(m, e, n) <= e[n]
    ensures MarkedBytes(m, e, n) == e[n] <==> forall k :: 0 <= k < n ==> m[k]
    decreases n
  {
    if n > 0 {
      AllBytesIff(m, e, n - 1);
    }
  }

  lemma {:induction false} BlockOf(e: seq<int>, n: nat, x: int) returns (k: nat)
    requires Boundaries(e) && n < |e| && 0 <= x < e[n]
    ensures k < n && e[k] <= x < e[k + 1]
    decreases n
  {
    if e[n - 1] <= x {
      k := n - 1;
    } else {
      k := BlockOf(e, n - 1, x);
    }
  }

  /** The marked positions are `[0, size)` exactly if every block is marked. */
  lemma AllPositionsIff(m: seq<bool>, e: seq<int>)
    requires Cut(m, e)
    ensures (forall x :: InMarked(m, e, |m|, x) <==> 0 <= x < e[|m|]) <==> AllMarked(m)
  {
    if AllMarked(m) {
      forall x
        ensures InMarked(m, e, |m|, x) <==> 0 <= x < e[|m|]
      {
        if 0 <= x < e[|m|] {
          var k := BlockOf(e, |m|, x);
          assert m[k];
        }
      }
    }
    if forall x :: InMarked(m, e, |m|, x) <==> 0 <= x < e[|m|] {
      forall k | 0 <= k < |m|
        ensures m[k]
      {
        assert e[0] <= e[k] < e[k + 1] <= e[|m|];
        assert InMarked(m, e, |m|, e[k]);
        var j :| 0 <= j < |m| && m[j] && e[j] <= e[k] < e[j + 1];
        SameBlock(e, j, k);
      }
    }
  }

  lemma SameBlock(e: seq<int>, j: nat, k: nat)
    requires Boundaries(e) && j + 1 < |e| && k + 1 < |e| && e[j] <= e[k] < e[j + 1]
    ensures j == k
  {
    Ordered(e, j + 1, k);
    Ordered(e, k + 1, j);
    Ordered(e, k, k + 1);
  }

  lemma Ordered(e: seq<int>, i: nat, j: nat)
    requires Boundaries(e) && i < |e| && j < |e|
    ensures (i <= j ==> e[i] <= e[j]) && (i < j ==> e[i] < e[j])
  {
  }

  // ---- the scan that turns marks into ranges

  lemma PositionMarked(m: seq<bool>, e: seq<int>, i: nat, rs: seq<ByteRange>, start: int, x: int)
    requires Cut(m, e) && i < |m| && SamePositions(m, e, i, rs, start) && m[i]
    requires start == -1 || 0 <= start < e[i]
    ensures var start' := if start == -1 then e[i] else start;
            InMarked(m, e, i + 1, x) <==> Has(rs, x) || (start' != -1 && start' <= x < e[i + 1])
  {
    Ordered(e, 0, i);
    Ordered(e, i, i + 1);
    InMarkedNext(m, e, i, x);
    assert InMarked(m, e, i, x) <==> Has(rs, x) || (start != -1 && start <= x < e[i]);
  }

  lemma PositionsMarked(m: seq<bool>, e: seq<int>, i: nat, rs: seq<ByteRange>, start: int)
    requires Cut(m, e) && i < |m| && SamePositions(m, e, i, rs, start) && m[i]
    requires start == -1 || 0 <= start < e[i]
    ensures SamePositions(m, e, i + 1, rs, if start == -1 then e[i] else start)
  {
    forall x
      ensures var start' := if start == -1 then e[i] else start;
              InMarked(m, e, i + 1, x) <==> Has(rs, x) || (start' != -1 && start' <= x < e[i + 1])
    {
      PositionMarked(m, e, i, rs, start, x);
    }
  }

  lemma ScanMarked(m: seq<bool>, e: seq<int>, i: nat, rs: seq<ByteRange>, start: int)
    requires Cut(m, e) && i < |m| && Scanned(m, e, i, rs, start) && m[i]
    ensures Scanned(m, e, i + 1, rs, if start == -1 then e[i] else start)
  {
    PositionsMarked(m, e, i, rs, start);
    Ordered(e, 0, i);
    Ordered(e, i, i + 1);
    if i > 0 {
      Ordered(e, i - 1, i);
    }
  }

  lemma Close(rs: seq<ByteRange>, start: int, end: int)
    requires Canonical(rs) && start < end && (rs != [] ==> rs[|rs| - 1].end < start)
    ensures var rs' := rs + [ByteRange(start, end)];
            && Canonical(rs') && SumLengths(rs') == SumLengths(rs) + end - start
            && forall x :: Has(rs', x) <==> Has(rs, x) || start <= x < end
  {
    var r := ByteRange(start, end);
    HasSnoc(rs, r);
    assert (rs + [r])[..|rs|] == rs;
    forall i | 0 <= i < |rs|
      ensures rs[i].end < start
    {
      assert i == |rs| - 1 || rs[i].end < rs[|rs| - 1].start;
    }
  }

  lemma PositionsUnmarked(m: seq<bool>, e: seq<int>, i: nat, rs: seq<ByteRange>, start: int, rs': seq<ByteRange>)
    requires Cut(m, e) && i < |m| && SamePositions(m, e, i, rs, start) && !m[i]
    requires forall x :: Has(rs', x) <==> Has(rs, x) || (start != -1 && start <= x < e[i])
    ensures SamePositions(m, e, i + 1, rs', -1)
  {
    forall x
      ensures InMarked(m, e, i + 1, x) <==> Has(rs', x)
    {
      InMarkedNext(m, e, i, x);
      assert InMarked(m, e, i, x) <==> Has(rs, x) || (start != -1 && start <= x < e[i]);
    }
  }

  lemma ScanUnmarked(m: seq<bool>, e: seq<int>, i: nat, rs: seq<ByteRange>, start: int)
    requires Cut(m, e) && i < |m| && Scanned(m, e, i, rs, start) && !m[i]
    ensures Scanned(m, e, i + 1, if start == -1 then rs else rs + [ByteRange(start, e[i])], -1)
  {
    if start != -1 {
      Close(rs, start, e[i]);
      PositionsUnmarked(m, e, i, rs, start, rs + [ByteRange(start, e[i])]);
    } else {
      PositionsUnmarked(m, e, i, rs, start, rs);
      if i > 0 {
        Ordered(e, i - 1, i);
      }
    }
  }

  lemma PositionsClosed(m: seq<bool>, e: seq<int>, i: nat, rs: seq<ByteRange>, start: int)
    requires Cut(m, e) && i <= |m| && SamePositions(m, e, i, rs, start) && start != -1
    requires Canonical(rs) && start < e[i] && (rs != [] ==> rs[|rs| - 1].end < start)
    ensures SamePositions(m, e, i, rs + [ByteRange(start, e[i])], -1)
  {
    Close(rs, start, e[i]);
  }

  lemma ScanDone(m: seq<bool>, e: seq<int>, rs: seq<ByteRange>, start: int)
    requires Cut(m, e) && Scanned(m, e, |m|, rs, start)
    ensures Describes(if start == -1 then rs else rs + [ByteRange(start, e[|m|])], m, e)
  {
    if start == -1 {
      SumIsSize(rs);
    } else {
      Close(rs, start, e[|m|]);
      PositionsClosed(m, e, |m|, rs, start);
      SumIsSize(rs + [ByteRange(start, e[|m|])]);
    }
  }

  /** Three ways of asking whether an upload is complete, and one answer. */
  lemma CompleteThreeWays(rs: seq<ByteRange>, m: seq<bool>, e: seq<int>)
    requires Cut(m, e) && Describes(rs, m, e)
    ensures AllMarked(m) <==> MarkedBytes(m, e, |m|) == e[|m|]
    ensures AllMarked(m) <==> forall x :: Has(rs, x) <==> 0 <= x < e[|m|]
  {
    AllBytesIff(m, e, |m|);
    AllPositionsIff(m, e);
    if forall x :: Has(rs, x) <==> 0 <= x < e[|m|] {
      assert forall x :: InMarked(m, e, |m|, x) <==> 0 <= x < e[|m|];
    }
  }
}
