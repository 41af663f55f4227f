/** How a file is cut into blocks: all of one size but perhaps the last. */
module BlockSizes {
  import opened Base
  import opened BlockMarks
  import opened Words

  function BlockCountFor(size: nat, bs: int): nat {
    if bs <= 0 then 0 else size / bs + if size % bs != 0 then 1 else 0
  }

  function BlockEndBoundary(i: nat, bs: nat, size: nat): nat {
    Min(i * bs, size)
  }

  function Bounds(size: nat, bs: nat): (e: seq<int>)
    requires bs >= 1
    ensures |e| == BlockCountFor(size, bs) + 1
    ensures forall i :: 0 <= i < |e| ==> e[i] == BlockEndBoundary(i, bs, size)
  {
    seq(BlockCountFor(size, bs) + 1, i requires 0 <= i => BlockEndBoundary(i, bs, size))
  }

  lemma MulMono(a: int, b: int, c: nat)
    ensures a <= b ==> a * c <= b * c
  {
  }

  lemma MulStrict(a: int, b: int, c: nat)
    requires a < b && c > 0
    ensures a * c < b * c
  {
    MulMono(a + 1, b, c);
    assert (a + 1) * c == a * c + c;
  }

  /** The last block starts before the end of the file and reaches it. */
  lemma CountFits(size: nat, bs: nat)
    requires bs >= 1
    ensures var n := BlockCountFor(size, bs);
            && (n == 0 <==> size == 0) && (n > 0 ==> (n - 1) * bs < size) && size <= n * bs
            && (size % bs == 0 ==> n * bs == size)
            && (size % bs != 0 ==> n * bs - size == bs - size % bs)
  {
    var q := size / bs;
    assert size == q * bs + size % bs;
    assert (q + 1) * bs == q * bs + bs && (q - 1) * bs == q * bs - bs;
    MulMono(0, q, bs);
  }

  lemma BoundsCut(size: nat, bs: nat, m: seq<bool>)
    requires bs >= 1 && |m| == BlockCountFor(size, bs)
    ensures Cut(m, Bounds(size, bs)) && Bounds(size, bs)[|m|] == size
    ensures forall k :: 0 <= k < |m| ==> Bounds(size, bs)[k] == k * bs
  {
    CountFits(size, bs);
    var e := Bounds(size, bs);
    var n := |m|;
    forall k | 0 <= k < n
      ensures e[k] == k * bs < size
    {
      MulMono(k, n - 1, bs);
    }
    forall i, j | 0 <= i < j < |e|
      ensures e[i] < e[j]
    {
      MulStrict(i, j, bs);
    }
  }

  // ---- counting bytes by counting bits

  lemma {:induction false} WholeBlocks(m: seq<bool>, size: nat, bs: nat, n: nat)
    requires bs >= 1 && |m| == BlockCountFor(size, bs) && n < |m|
    requires Cut(m, Bounds(size, bs))
    ensures MarkedBytes(m, Bounds(size, bs), n) == Ones(m, n) * bs
    decreases n
  {
    if n > 0 {
      BoundsCut(size, bs, m);
      WholeBlocks(m, size, bs, n - 1);
      OneMoreBlock(Ones(m, n - 1), n, bs);
    }
  }

  lemma OneMoreBlock(ones: nat, n: nat, bs: nat)
    requires n > 0
    ensures (ones + 1) * bs == ones * bs + bs && n * bs - (n - 1) * bs == bs
  {
  }

  /** The popcount times the block size, less what a marked partial last block falls short. */
  lemma BytesByCount(m: seq<bool>, size: nat, bs: nat)
    requires bs >= 1 && |m| == BlockCountFor(size, bs)
    ensures Cut(m, Bounds(size, bs))
    ensures var tail := size % bs;
            MarkedBytes(m, Bounds(size, bs), |m|)
            == Ones(m, |m|) * bs - if tail != 0 && m[|m| - 1] then bs - tail else 0
  {
    BoundsCut(size, bs, m);
    CountFits(size, bs);
    var n := |m|;
    if n > 0 {
      WholeBlocks(m, size, bs, n - 1);
      OneMoreBlock(Ones(m, n - 1), n, bs);
    }
  }
}

/** The bits of consecutive words, as the marks of consecutive blocks. */
module BitmapWords {
  import opened Base
  import opened BlockMarks
  import opened Words

  /** The bit of block `i` among the words. */
  function MarkAt(words: seq<Word>, i: nat): bool
    requires i < 64 * |words|
  {
    words[i / 64][i % 64]
  }

  function MarksOf(words: seq<Word>, count: nat): (m: seq<bool>)
    requires count <= 64 * |words|
    ensures |m| == count && forall i :: 0 <= i < count ==> m[i] == MarkAt(words, i)
  {
    seq(count, i requires 0 <= i < count => MarkAt(words, i))
  }

  lemma MarkIn(words: seq<Word>, w: nat, b: nat)
    requires w < |words| && b < 64
    ensures MarkAt(words, 64 * w + b) == words[w][b]
  {
    assert (64 * w + b) / 64 == w && (64 * w + b) % 64 == b;
  }

  lemma SetMark(words: seq<Word>, count: nat, i: nat)
    requires count <= 64 * |words| && i < count
    ensures var w := i / 64;
            MarksOf(words[w := Or(words[w], OneBit(i % 64))], count) == MarksOf(words, count)[i := true]
  {
    var w := i / 64;
    var words' := words[w := Or(words[w], OneBit(i % 64))];
    forall k | 0 <= k < count
      ensures MarkAt(words', k) == (k == i || MarkAt(words, k))
    {
      assert k / 64 == w && k % 64 == i % 64 ==> k == i;
    }
  }

  /** The set bits of `j` blocks of word `w` add to those of the words before. */
  lemma {:induction false} WordOnes(words: seq<Word>, count: nat, w: nat, j: nat)
    requires count <= 64 * |words| && w < |words| && j <= 64 && 64 * w + j <= count
    ensures Ones(MarksOf(words, count), 64 * w + j) == Ones(MarksOf(words, count), 64 * w) + Ones(words[w], j)
    decreases j
  {
    if j > 0 {
      WordOnes(words, count, w, j - 1);
      MarkIn(words, w, j - 1);
    }
  }

  /** How many of the last word's bits stand for blocks: 1 to 64. */
  function ValidIn(count: nat): (v: nat)
    requires count > 0
    ensures 1 <= v <= 64
  {
    count - 64 * ((count + 63) / 64 - 1)
  }

  function TailMask(valid: nat): Word {
    if valid != 64 then LowMask(valid) else Full()
  }

  predicate LowBits(w: Word, v: nat)
    requires v <= 64
  {
    forall b :: 0 <= b < v ==> w[b]
  }

  lemma TailCovers(w: Word, valid: nat)
    requires 1 <= valid <= 64
    ensures And(w, TailMask(valid)) == TailMask(valid) <==> LowBits(w, valid)
  {
    var mask := TailMask(valid);
    if And(w, mask) == mask {
      forall b | 0 <= b < valid
        ensures w[b]
      {
        assert And(w, mask)[b] == mask[b];
      }
    }
  }

  lemma AllMarkedByWords(words: seq<Word>, count: nat)
    requires count > 0 && |words| == (count + 63) / 64
    ensures AllMarked(MarksOf(words, count))
            <==> (forall w :: 0 <= w < |words| - 1 ==> words[w] == Full())
                 && LowBits(words[|words| - 1], ValidIn(count))
  {
    var m := MarksOf(words, count);
    var last := |words| - 1;
    if AllMarked(m) {
      forall w | 0 <= w < last
        ensures words[w] == Full()
      {
        forall b | 0 <= b < 64
          ensures words[w][b]
        {
          MarkIn(words, w, b);
          assert m[64 * w + b];
        }
      }
      forall b | 0 <= b < ValidIn(count)
        ensures words[last][b]
      {
        MarkIn(words, last, b);
        assert m[64 * last + b];
      }
    }
    if (forall w :: 0 <= w < last ==> words[w] == Full()) && LowBits(words[last], ValidIn(count)) {
      forall k | 0 <= k < count
        ensures m[k]
      {
        assert m[k] == words[k / 64][k % 64];
      }
    }
  }

  lemma WholeWord(words: seq<Word>, count: nat, w: nat, end: nat)
    requires count <= 64 * |words| && end == 64 * w + 64 <= count
    ensures Ones(MarksOf(words, count), end) == Ones(MarksOf(words, count), 64 * w) + OnesCount(words[w])
  {
    WordOnes(words, count, w, 64);
  }

  lemma LastWord(words: seq<Word>, count: nat)
    requires count > 0 && |words| == (count + 63) / 64
    ensures var w := |words| - 1;
            Ones(MarksOf(words, count), count)
            == Ones(MarksOf(words, count), 64 * w) + OnesCount(And(words[w], TailMask(ValidIn(count))))
  {
    MaskedOnes(words[|words| - 1], ValidIn(count));
    WordOnes(words, count, |words| - 1, ValidIn(count));
  }

  /** The set bits of the first `i` words. */
  predicate Counted(m: seq<bool>, i: nat, set_: nat) {
    64 * i <= |m| && set_ == Ones(m, 64 * i)
  }

  lemma CountWord(words: seq<Word>, m: seq<bool>, i: nat, set_: nat)
    requires |m| <= 64 * |words| && m == MarksOf(words, |m|) && Counted(m, i, set_) && 64 * i + 64 <= |m|
    ensures Counted(m, i + 1, set_ + OnesCount(words[i]))
  {
    WholeWord(words, |m|, i, 64 * i + 64);
  }

  lemma CountLast(words: seq<Word>, m: seq<bool>, i: nat, set_: nat)
    requires |m| > 0 && |words| == (|m| + 63) / 64 && m == MarksOf(words, |m|)
    requires i == |words| - 1 && Counted(m, i, set_)
    ensures Ones(m, |m|) == set_ + OnesCount(And(words[i], TailMask(ValidIn(|m|))))
  {
    LastWord(words, |m|);
  }

  lemma MaskedOnes(w: Word, valid: nat)
    requires 1 <= valid <= 64
    ensures OnesCount(And(w, TailMask(valid))) == Ones(w, valid)
  {
    if valid != 64 {
      OnesMasked(w, valid, 64);
    } else {
      assert And(w, Full()) == w;
    }
  }
}

/** The block bitmap of an aligned upload, without contention; MarkRace.dfy has the contended case. */
module Bitmaps {
  import opened Base
  import opened Ranges
  import opened BlockMarks
  import opened Blocks
  import opened BlockSizes
  import opened BitmapWords
  import opened Words

  class BlockBitmap {
    const blockCount: nat
    const blocks: array<Word>

    ghost predicate Valid() {
      blocks.Length == (blockCount + 63) / 64
    }

    ghost function Marks(): (m: seq<bool>)
      requires Valid()
      reads blocks
      ensures |m| == blockCount
    {
      MarksOf(blocks[..], blockCount)
    }

    constructor (blockCount: nat)
      ensures Valid() && this.blockCount == blockCount && fresh(blocks)
      ensures forall i :: 0 <= i < blockCount ==> !Marks()[i]
    {
      this.blockCount := blockCount;
      blocks := new Word[(blockCount + 63) / 64](_ => Zero());
    }

    /** mark: an index outside the file is ignored, any other block becomes marked and no block unmarked. */
    method Mark(blockIdx: int)
      requires Valid()
      modifies blocks
      ensures Marks() == if 0 <= blockIdx < blockCount then old(Marks())[blockIdx := true] else old(Marks())
    {
      if blockIdx < 0 || blockIdx >= blockCount {
        return;
      }
      var word := blockIdx / 64;
      var bit := blockIdx % 64;
      var was := blocks[word];
      if was[bit] {
        assert Marks()[blockIdx];
        return;
      }
      SetMark(blocks[..], blockCount, blockIdx);
      blocks[word] := Or(was, OneBit(bit));
      assert blocks[..] == old(blocks[..])[word := Or(was, OneBit(bit))];
    }

    /** isComplete: every block is marked; bits beyond the last block do not matter. */
    method IsComplete() returns (r: bool)
      requires Valid()
      ensures r <==> AllMarked(Marks())
    {
      var words := blocks.Length;
      if words == 0 {
        return true;
      }
      AllMarkedByWords(blocks[..], blockCount);
      var i := 0;
      while i < words - 1
        invariant 0 <= i <= words - 1 && forall w :: 0 <= w < i ==> blocks[w] == Full()
      {
        if blocks[i] != Full() {
          assert blocks[..][i] != Full();
          return false;
        }
        i := i + 1;
      }
      var mask := LastMask();
      TailCovers(blocks[words - 1], ValidIn(blockCount));
      assert blocks[..][words - 1] == blocks[words - 1];
      return And(blocks[words - 1], mask) == mask;
    }

    /** The mask both readers put over the last word: as many low bits as it has blocks. */
    method LastMask() returns (mask: Word)
      requires Valid() && blocks.Length > 0
      ensures mask == TailMask(ValidIn(blockCount))
    {
      var valid := blockCount - (blocks.Length - 1) * 64;
      mask := Full();
      if valid != 64 {
        mask := LowMask(valid);
      }
    }

    /** The set bits of all words, the last one masked. */
    method CountSet() returns (set_: nat)
      requires Valid() && blocks.Length > 0
      ensures set_ == Ones(Marks(), blockCount)
    {
      ghost var words, m := blocks[..], Marks();
      var n := blocks.Length;
      set_ := 0;
      var i := 0;
      while i < n - 1
        invariant 0 <= i <= n - 1 && Counted(m, i, set_)
      {
        CountWord(words, m, i, set_);
        set_ := set_ + OnesCount(blocks[i]);
        i := i + 1;
      }
      var mask := LastMask();
      CountLast(words, m, n - 1, set_);
      set_ := set_ + OnesCount(And(blocks[n - 1], mask));
    }

    /** progress: the bytes of the marked blocks, a partial last block counted as it is. */
    method Progress(size: nat, bs: nat) returns (bytes: int)
      requires Valid() && bs >= 1 && blockCount == BlockCountFor(size, bs)
      ensures Cut(Marks(), Bounds(size, bs)) && bytes == MarkedBytes(Marks(), Bounds(size, bs), blockCount)
    {
      BytesByCount(Marks(), size, bs);
      if blocks.Length == 0 {
        return 0;
      }
      var count := CountSet();
      bytes := count * bs;
      var tail := size % bs;
      if tail != 0 {
        var last := blockCount - 1;
        assert blocks[last / 64][last % 64] == Marks()[last];
        if blocks[last / 64][last % 64] {
          bytes := bytes - bs + tail;
        }
      }
    }

    /** Ranges: the marked blocks as sorted, disjoint ranges with gaps between them. */
    method ReconstructRanges(size: nat, bs: nat) returns (rs: seq<ByteRange>)
      requires Valid() && bs >= 1 && blockCount == BlockCountFor(size, bs)
      ensures Cut(Marks(), Bounds(size, bs)) && Describes(rs, Marks(), Bounds(size, bs))
    {
      rs := [];
      var start := -1;
      ghost var m, e := Marks(), Bounds(size, bs);
      BoundsCut(size, bs, m);
      ScanStarts(m, e);
      var i := 0;
      while i < blockCount
        invariant 0 <= i <= blockCount && Cut(m, e) && m == Marks()
        invariant Scanned(m, e, i, rs, start)
      {
        assert m[i] == blocks[i / 64][i % 64];
        if blocks[i / 64][i % 64] {
          ScanMarked(m, e, i, rs, start);
          if start == -1 {
            start := i * bs;
          }
        } else {
          ScanUnmarked(m, e, i, rs, start);
          if start != -1 {
            rs := rs + [ByteRange(start, BlockEndBoundary(i, bs, size))];
            start := -1;
          }
        }
        i := i + 1;
      }
      ScanDone(m, e, rs, start);
      if start != -1 {
        rs := rs + [ByteRange(start, BlockEndBoundary(blockCount, bs, size))];
      }
    }
  }

  lemma ScanStarts(m: seq<bool>, e: seq<int>)
    requires Cut(m, e)
    ensures Scanned(m, e, 0, [], -1)
  {
  }

  /** isComplete, progress equal to the size, and the range list covering the file are the same thing. */
  lemma CompletenessAgrees(m: seq<bool>, size: nat, bs: nat, rs: seq<ByteRange>)
    requires bs >= 1 && |m| == BlockCountFor(size, bs)
    requires Cut(m, Bounds(size, bs)) && Describes(rs, m, Bounds(size, bs))
    ensures AllMarked(m) <==> MarkedBytes(m, Bounds(size, bs), |m|) == size
    ensures AllMarked(m) <==> forall x :: Has(rs, x) <==> 0 <= x < size
    ensures AllMarked(m) <==> if size == 0 then rs == [] else rs == [ByteRange(0, size)]
    ensures |Positions(rs)| == MarkedBytes(m, Bounds(size, bs), |m|)
  {
    BoundsCut(size, bs, m);
    CompleteThreeWays(rs, m, Bounds(size, bs));
    CompleteIff(rs, size);
  }
}
