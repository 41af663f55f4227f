/**
 What the piece check of an upload session establishes. A block is checked once;
 `held` remembers the bytes it had then, and the file may have others by the end.
 */
module UploadPieces {
  import opened Base
  import opened BlockSizes
  import opened UploadSpec
  import opened UploadFiles
  import PF = PageFormat

  /** The `n` bytes of the file from `start` on. */
  function Slice(file: Bytes, start: nat, n: nat): Bytes {
    if start + n <= |file| then file[start..start + n] else []
  }

  /** Block `b` of the file. */
  function BlockAt(file: Bytes, b: nat, bs: nat): Bytes {
    Slice(file, b * bs, bs)
  }

  /** Writing `x` at `off` puts no other byte into the stretch that holds `h` from `start` on. */
  predicate Kept(off: nat, x: Bytes, h: Bytes, start: nat) {
    forall i :: 0 <= i < |h| && off <= start + i < off + |x| ==> x[start + i - off] == h[i]
  }

  lemma PutSame(file: Bytes, off: nat, x: Bytes)
    requires off + |x| <= |file|
    ensures |Put(file, off, x)| == |file|
    ensures forall i :: 0 <= i < |file| ==> Put(file, off, x)[i] == if off <= i < off + |x| then x[i - off] else file[i]
  {
  }

  lemma SliceAfterPut(file: Bytes, off: nat, x: Bytes, start: nat, n: nat)
    requires off + |x| <= |file| && start + n <= |file|
    ensures Slice(Put(file, off, x), start, n) == Slice(file, start, n) <==> Kept(off, x, Slice(file, start, n), start)
  {
    var h, now := Slice(file, start, n), Slice(Put(file, off, x), start, n);
    PutSame(file, off, x);
    forall i | 0 <= i < n
      ensures h[i] == file[start + i] && now[i] == Put(file, off, x)[start + i]
    {
    }
    if Kept(off, x, h, start) {
      forall i | 0 <= i < n
        ensures now[i] == h[i]
      {
      }
    }
    if now == h {
      forall i | 0 <= i < n && off <= start + i < off + |x|
        ensures x[start + i - off] == h[i]
      {
        assert now[i] == h[i];
      }
    }
  }

  // ---- the record of what was checked

  /** The block was checked with these bytes. */
  predicate HeldBlock(p: Pieces, held: map<nat, Bytes>, b: nat) {
    b < |p.hashes| && b in held && |held[b]| == p.bs && p.hash(held[b]) == p.hashes[b]
  }

  /** Every verified block matched its piece hash when it was checked. */
  ghost predicate HeldOk(p: Pieces, verified: seq<bool>, held: map<nat, Bytes>) {
    forall b: nat :: b < |verified| && verified[b] ==> HeldBlock(p, held, b)
  }

  /** Every verified block still has the bytes it was checked with. */
  ghost predicate HeldIntact(file: Bytes, bs: nat, verified: seq<bool>, held: map<nat, Bytes>) {
    forall b: nat :: b < |verified| && verified[b] ==> BlockIntact(file, bs, held, b)
  }

  predicate BlockIntact(file: Bytes, bs: nat, held: map<nat, Bytes>, b: nat) {
    b in held && BlockAt(file, b, bs) == held[b]
  }

  /** A write leaves every verified block with the bytes it was checked with. */
  ghost predicate AllKept(verified: seq<bool>, held: map<nat, Bytes>, bs: nat, off: nat, x: Bytes) {
    forall b: nat :: b < |verified| && verified[b] ==> BlockKept(held, bs, off, x, b)
  }

  predicate BlockKept(held: map<nat, Bytes>, bs: nat, off: nat, x: Bytes, b: nat) {
    b in held && Kept(off, x, held[b], b * bs)
  }

  lemma NothingKeepsAll(p: Pieces, verified: seq<bool>, held: map<nat, Bytes>, off: nat)
    requires HeldOk(p, verified, held)
    ensures AllKept(verified, held, p.bs, off, [])
  {
    forall b: nat | b < |verified| && verified[b]
      ensures BlockKept(held, p.bs, off, [], b)
    {
      assert HeldBlock(p, held, b);
    }
  }

  /** What the piece loop over a chunk has recorded so far: the old records, and the chunk's own blocks. */
  ghost predicate Recorded(p: Pieces, was: seq<bool>, now: seq<bool>, before: map<nat, Bytes>, held: map<nat, Bytes>,
                           chunk: Bytes, first: nat) {
    && |now| == |was|
    && (forall b: nat :: b < |was| && was[b] ==> now[b])
    && (forall b: nat :: b < |now| && now[b] ==> RecordedBlock(p, was, before, held, chunk, first, b))
  }

  predicate RecordedBlock(p: Pieces, was: seq<bool>, before: map<nat, Bytes>, held: map<nat, Bytes>, chunk: Bytes,
                          first: nat, b: nat)
    requires b < |was|
  {
    if was[b] then b in before ==> b in held && held[b] == before[b]
    else OwnBlock(p, held, chunk, first, b)
  }

  /** A block of the chunk itself, checked just now. */
  predicate OwnBlock(p: Pieces, held: map<nat, Bytes>, chunk: Bytes, first: nat, b: nat) {
    && first <= b && HeldBlock(p, held, b) && held[b] == PieceOf(chunk, b - first, p.bs)
    && 0 <= (b - first) * p.bs && (b - first) * p.bs + p.bs <= |chunk|
  }

  lemma RecordedStarts(p: Pieces, was: seq<bool>, held: map<nat, Bytes>, chunk: Bytes, first: nat)
    ensures Recorded(p, was, was, held, held, chunk, first)
  {
  }

  /** One block more. */
  lemma RecordedStep(p: Pieces, was: seq<bool>, now: seq<bool>, before: map<nat, Bytes>, held: map<nat, Bytes>,
                     chunk: Bytes, first: nat, k: nat)
    requires Recorded(p, was, now, before, held, chunk, first)
    requires first + k < |now| && !now[first + k] && first + k < |p.hashes|
    requires 0 <= k * p.bs && k * p.bs + p.bs <= |chunk| && p.hash(PieceOf(chunk, k, p.bs)) == p.hashes[first + k]
    ensures Recorded(p, was, now[first + k := true], before, held[first + k := PieceOf(chunk, k, p.bs)], chunk, first)
  {
    var b := first + k;
    var now', held' := now[b := true], held[b := PieceOf(chunk, k, p.bs)];
    assert b - first == k && |PieceOf(chunk, k, p.bs)| == p.bs;
    assert OwnBlock(p, held', chunk, first, b);
    forall c: nat | c < |now'| && now'[c]
      ensures RecordedBlock(p, was, before, held', chunk, first, c)
    {
      if c != b {
        assert RecordedBlock(p, was, before, held, chunk, first, c);
      }
    }
  }

  lemma RecordedOk(p: Pieces, was: seq<bool>, now: seq<bool>, before: map<nat, Bytes>, held: map<nat, Bytes>,
                   chunk: Bytes, first: nat)
    requires HeldOk(p, was, before) && Recorded(p, was, now, before, held, chunk, first)
    ensures HeldOk(p, now, held)
  {
    forall b: nat | b < |now| && now[b]
      ensures HeldBlock(p, held, b)
    {
      assert RecordedBlock(p, was, before, held, chunk, first, b);
      if was[b] {
        assert HeldBlock(p, before, b);
      }
    }
  }

  // ---- the piece loop

  lemma PieceInside(chunk: Bytes, k: nat, n: nat, bs: nat)
    requires |chunk| == n * bs && k < n
    ensures 0 <= k * bs && k * bs + bs <= |chunk| && PieceOf(chunk, k, bs) == chunk[k * bs..k * bs + bs]
  {
    MulMono(0, k, bs);
    MulMono(k + 1, n, bs);
    assert (k + 1) * bs == k * bs + bs;
  }

  lemma MarkNone(m: seq<bool>, first: nat)
    ensures MarkBlocks(m, first, first - 1) == m
  {
  }

  lemma MarkOneMore(m: seq<bool>, first: nat, b: nat)
    requires first <= b
    ensures MarkBlocks(m, first, b)
            == if b < |m| then MarkBlocks(m, first, b - 1)[b := true] else MarkBlocks(m, first, b - 1)
  {
  }

  /** One turn of the piece loop. */
  lemma PieceStep(p: Pieces, was: seq<bool>, now: seq<bool>, after: seq<bool>, chunk: Bytes, first: nat, k: nat, ok: bool,
                  n: nat)
    requires PiecesChecked(p, was, now, chunk, first, k) && k < n
    requires ok <==> PieceOk(p, now, chunk, first, k)
    requires ok ==> first + k < |now| && after == now[first + k := true]
    ensures if ok then PiecesChecked(p, was, after, chunk, first, k + 1) else !PiecesOk(p, was, chunk, first, n)
  {
    MarkOneMore(was, first, first + k);
    assert first + k < |was| ==> now[first + k] == was[first + k];
    assert PieceOk(p, was, chunk, first, k) <==> ok;
  }

  /** The state of the loop before block `k`. */
  ghost predicate Looping(p: Pieces, was: seq<bool>, now: seq<bool>, before: map<nat, Bytes>, held: map<nat, Bytes>,
                          chunk: Bytes, first: nat, k: nat) {
    PiecesChecked(p, was, now, chunk, first, k) && Recorded(p, was, now, before, held, chunk, first)
  }

  lemma LoopStarts(p: Pieces, was: seq<bool>, held: map<nat, Bytes>, chunk: Bytes, first: nat)
    ensures Looping(p, was, was, held, held, chunk, first, 0)
  {
    MarkNone(was, first);
    RecordedStarts(p, was, held, chunk, first);
  }

  lemma LoopTurn(p: Pieces, was: seq<bool>, now: seq<bool>, after: seq<bool>, before: map<nat, Bytes>,
                 held: map<nat, Bytes>, heldAfter: map<nat, Bytes>, chunk: Bytes, first: nat, k: nat, ok: bool, n: nat)
    requires Looping(p, was, now, before, held, chunk, first, k) && k < n
    requires |chunk| == n * p.bs && first + n <= |was| == |p.hashes| && |now| == |was|
    requires ok <==> PieceOk(p, now, chunk, first, k)
    requires after == if ok then now[first + k := true] else now
    requires heldAfter == if ok && !now[first + k] then held[first + k := PieceOf(chunk, k, p.bs)] else held
    ensures Recorded(p, was, after, before, heldAfter, chunk, first)
    ensures if ok then Looping(p, was, after, before, heldAfter, chunk, first, k + 1) else !PiecesOk(p, was, chunk, first, n)
  {
    PieceStep(p, was, now, after, chunk, first, k, ok, n);
    if ok && !now[first + k] {
      PieceInside(chunk, k, n, p.bs);
      RecordedStep(p, was, now, before, held, chunk, first, k);
    } else {
      assert after == now;
    }
  }

  lemma LoopEnds(p: Pieces, was: seq<bool>, now: seq<bool>, before: map<nat, Bytes>, held: map<nat, Bytes>,
                 chunk: Bytes, first: nat, n: nat)
    requires Looping(p, was, now, before, held, chunk, first, n)
    ensures PiecesOk(p, was, chunk, first, n) && now == MarkBlocks(was, first, first + n - 1)
    ensures Recorded(p, was, now, before, held, chunk, first)
  {
  }

  // ---- the file against the record

  /** The file holds the chunk where it was written. */
  lemma OwnBlockIntact(p: Pieces, file: Bytes, held: map<nat, Bytes>, off: nat, chunk: Bytes, first: nat, b: nat)
    requires off == first * p.bs && off + |chunk| <= |file| && OwnBlock(p, held, chunk, first, b)
    ensures BlockIntact(Put(file, off, chunk), p.bs, held, b)
  {
    var i := (b - first) * p.bs;
    assert b * p.bs == off + i;
    PutSame(file, off, chunk);
    if chunk != [] {
      assert Put(file, off, chunk)[off..off + |chunk|] == chunk;
      assert Slice(Put(file, off, chunk), off + i, p.bs) == chunk[i..i + p.bs];
    }
  }

  lemma OldBlockIntact(file: Bytes, bs: nat, held: map<nat, Bytes>, off: nat, x: Bytes, b: nat)
    requires off + |x| <= |file| && BlockIntact(file, bs, held, b) && |held[b]| == bs
    ensures BlockIntact(Put(file, off, x), bs, held, b) <==> BlockKept(held, bs, off, x, b)
  {
    if b * bs + bs <= |file| {
      SliceAfterPut(file, off, x, b * bs, bs);
    } else {
      PutSame(file, off, x);
    }
  }

  /** After a chunk was written and checked, verified blocks are intact exactly if the chunk kept those verified before. */
  lemma IntactAfter(p: Pieces, file: Bytes, was: seq<bool>, now: seq<bool>, before: map<nat, Bytes>, held: map<nat, Bytes>,
                    off: nat, x: Bytes, chunk: Bytes, first: nat)
    requires HeldOk(p, was, before) && HeldIntact(file, p.bs, was, before)
    requires off + |x| <= |file| && off == first * p.bs
    requires Recorded(p, was, now, before, held, chunk, first) && (x == chunk || (now == was && held == before))
    ensures HeldIntact(Put(file, off, x), p.bs, now, held) <==> AllKept(was, before, p.bs, off, x)
  {
    forall b: nat | b < |was| && was[b]
      ensures now[b] && (BlockIntact(Put(file, off, x), p.bs, held, b) <==> BlockKept(before, p.bs, off, x, b))
    {
      assert HeldBlock(p, before, b) && BlockIntact(file, p.bs, before, b);
      assert RecordedBlock(p, was, before, held, chunk, first, b);
      OldBlockIntact(file, p.bs, before, off, x, b);
    }
    forall b: nat | b < |now| && now[b] && !was[b]
      ensures BlockIntact(Put(file, off, x), p.bs, held, b)
    {
      assert RecordedBlock(p, was, before, held, chunk, first, b);
      OwnBlockIntact(p, file, held, off, chunk, first, b);
    }
    if AllKept(was, before, p.bs, off, x) {
      forall b: nat | b < |now| && now[b]
        ensures BlockIntact(Put(file, off, x), p.bs, held, b)
      {
        if was[b] {
          assert BlockKept(before, p.bs, off, x, b);
        }
      }
    }
    if HeldIntact(Put(file, off, x), p.bs, now, held) {
      forall b: nat | b < |was| && was[b]
        ensures BlockKept(before, p.bs, off, x, b)
      {
        assert BlockIntact(Put(file, off, x), p.bs, held, b);
      }
    }
  }

  /** Every block of the file matches its piece hash. */
  ghost predicate FileMatches(p: Pieces, file: Bytes) {
    forall b: nat :: b < |p.hashes| ==> BlockMatches(p, file, b)
  }

  predicate BlockMatches(p: Pieces, file: Bytes, b: nat)
    requires b < |p.hashes|
  {
    p.hash(BlockAt(file, b, p.bs)) == p.hashes[b]
  }

  /** Different bytes have different hashes. */
  ghost predicate CollisionFree(hash: Bytes -> nat) {
    forall x: Bytes, y: Bytes :: hash(x) == hash(y) ==> x == y
  }

  /** With every block verified, intact blocks match; without collisions no others do. */
  lemma MatchesIff(p: Pieces, file: Bytes, verified: seq<bool>, held: map<nat, Bytes>)
    requires |verified| == |p.hashes| && (forall b :: 0 <= b < |verified| ==> verified[b]) && HeldOk(p, verified, held)
    ensures HeldIntact(file, p.bs, verified, held) ==> FileMatches(p, file)
    ensures CollisionFree(p.hash) && FileMatches(p, file) ==> HeldIntact(file, p.bs, verified, held)
  {
    forall b: nat | b < |p.hashes|
      ensures HeldBlock(p, held, b)
      ensures BlockIntact(file, p.bs, held, b) ==> BlockMatches(p, file, b)
      ensures CollisionFree(p.hash) && BlockMatches(p, file, b) ==> BlockIntact(file, p.bs, held, b)
    {
      assert HeldBlock(p, held, b);
    }
    if HeldIntact(file, p.bs, verified, held) {
      forall b: nat | b < |p.hashes|
        ensures BlockMatches(p, file, b)
      {
        assert BlockIntact(file, p.bs, held, b);
      }
    }
    if CollisionFree(p.hash) && FileMatches(p, file) {
      forall b: nat | b < |verified| && verified[b]
        ensures BlockIntact(file, p.bs, held, b)
      {
        assert BlockMatches(p, file, b);
      }
    }
  }
}
