/** One upload session: the staged file, and the record of what has been received. */
module UploadFiles {
  import opened Base
  import opened Ranges
  import opened UploadSpec
  import PF = PageFormat

  /** One Read of the incoming chunk and the WriteAt that follows: fewer bytes stored than read, or an error, ends the chunk. */
  datatype Transfer = Transfer(data: Bytes, stored: nat, failed: bool)

  predicate Whole(t: Transfer) {
    t.stored >= |t.data| && !t.failed
  }

  function StoredOf(t: Transfer): Bytes {
    if t.stored >= |t.data| then t.data else t.data[..t.stored]
  }

  /** The bytes that reach the file before the chunk ends or fails. */
  function StoredBytes(ts: seq<Transfer>): Bytes {
    if ts == [] then []
    else if Whole(ts[0]) then ts[0].data + StoredBytes(ts[1..])
    else StoredOf(ts[0])
  }

  /** The bytes of a chunk that fall into its `k`-th block. */
  function PieceOf(chunk: Bytes, k: nat, bs: nat): Bytes {
    if 0 <= k * bs && k * bs + bs <= |chunk| then chunk[k * bs..k * bs + bs] else []
  }

  /** The announced hashes of a session's blocks; `hash` is any function of a block's bytes. */
  datatype Pieces = Pieces(bs: nat, hashes: seq<nat>, hash: Bytes -> nat)

  /** Block `k` of the chunk was verified before, or matches its piece hash. */
  predicate PieceOk(p: Pieces, wasVerified: seq<bool>, chunk: Bytes, first: nat, k: nat) {
    first + k < |wasVerified| && first + k < |p.hashes|
    && (wasVerified[first + k] || p.hash(PieceOf(chunk, k, p.bs)) == p.hashes[first + k])
  }

  ghost predicate PiecesOk(p: Pieces, wasVerified: seq<bool>, chunk: Bytes, first: nat, n: nat) {
    forall k: nat :: k < n ==> PieceOk(p, wasVerified, chunk, first, k)
  }

  /** The state of the piece loop before block `k`: the blocks before it are fine, and marked. */
  ghost predicate PiecesChecked(p: Pieces, was: seq<bool>, now: seq<bool>, chunk: Bytes, first: nat, k: nat) {
    now == MarkBlocks(was, first, first + k - 1) && PiecesOk(p, was, chunk, first, k)
  }

  predicate AllStored(ts: seq<Transfer>) {
    forall i :: 0 <= i < |ts| ==> Whole(ts[i])
  }

  /** WriteAt is not called without bytes. */
  function Put(file: Bytes, off: nat, x: Bytes): Bytes {
    if x == [] then file else PF.WriteAt(file, off, x)
  }

  /** The bytes `x` standing at `off`. */
  function Placed(off: nat, x: Bytes): (p: map<int, Byte>)
    ensures forall i :: i in p <==> off <= i < off + |x|
    ensures forall i :: i in p ==> p[i] == x[i - off]
  {
    if x == [] then map[] else Placed(off, x[..|x| - 1])[off + |x| - 1 := x[|x| - 1]]
  }

  /** Every position ever written holds what was written there last. */
  ghost predicate Holds(file: Bytes, image: map<int, Byte>) {
    forall i :: i in image ==> 0 <= i < |file| && file[i] == image[i]
  }

  /** The image after `x` was written at `off`. */
  ghost predicate Wrote(before: map<int, Byte>, after: map<int, Byte>, off: nat, x: Bytes) {
    forall i :: (i in after <==> i in before || off <= i < off + |x|)
             && (i in after ==> after[i] == if off <= i < off + |x| then x[i - off] else before[i])
  }

  lemma PutAt(file: Bytes, off: nat, x: Bytes, i: nat)
    ensures off <= i < off + |x| ==> i < |Put(file, off, x)| && Put(file, off, x)[i] == x[i - off]
    ensures i < |file| && !(off <= i < off + |x|) ==> i < |Put(file, off, x)| && Put(file, off, x)[i] == file[i]
  {
  }

  lemma PutHolds(file: Bytes, before: map<int, Byte>, after: map<int, Byte>, off: nat, x: Bytes)
    requires Holds(file, before) && Wrote(before, after, off, x)
    ensures Holds(Put(file, off, x), after)
  {
    forall i | i in after
      ensures 0 <= i < |Put(file, off, x)| && Put(file, off, x)[i] == after[i]
    {
      assert i in before || off <= i < off + |x|;
      PutAt(file, off, x, i);
    }
  }

  /** Two writes, the second right behind the first, are one. */
  lemma WroteMore(before: map<int, Byte>, mid: map<int, Byte>, after: map<int, Byte>, off: nat, x: Bytes, y: Bytes)
    requires Wrote(before, mid, off, x) && Wrote(mid, after, off + |x|, y)
    ensures Wrote(before, after, off, x + y)
  {
  }

  lemma WroteKeys(before: map<int, Byte>, after: map<int, Byte>, off: nat, x: Bytes)
    requires Wrote(before, after, off, x)
    ensures before.Keys <= after.Keys && forall i :: off <= i < off + |x| ==> i in after.Keys
  {
    forall i | i in before
      ensures i in after
    {
    }
  }

  lemma {:induction false} StoredSnoc(ts: seq<Transfer>, i: nat)
    requires i < |ts| && AllStored(ts[..i])
    ensures StoredBytes(ts[..i + 1]) == StoredBytes(ts[..i]) + StoredOf(ts[i])
    decreases i
  {
    if i == 0 {
      assert ts[..1] == [ts[0]] && ts[..0] == [];
      assert StoredBytes([ts[0]][1..]) == [];
    } else {
      var later := ts[1..];
      assert ts[..i][1..] == later[..i - 1] && ts[..i + 1][1..] == later[..i];
      assert AllStored(later[..i - 1]) by {
        forall k | 0 <= k < i - 1
          ensures Whole(later[k])
        {
          assert Whole(ts[..i][k + 1]);
        }
      }
      StoredSnoc(later, i - 1);
      assert Whole(ts[..i][0]);
      ConcatAssoc(ts[0].data, StoredBytes(later[..i - 1]), StoredOf(ts[i]));
    }
  }

  lemma {:induction false} StoredStops(ts: seq<Transfer>, i: nat)
    requires i < |ts| && AllStored(ts[..i]) && !Whole(ts[i])
    ensures StoredBytes(ts) == StoredBytes(ts[..i + 1])
    decreases i
  {
    if i > 0 {
      var later := ts[1..];
      assert ts[..i + 1][1..] == later[..i];
      assert AllStored(later[..i - 1]) by {
        forall k | 0 <= k < i - 1
          ensures Whole(later[k])
        {
          assert Whole(ts[..i][k + 1]);
        }
      }
      assert Whole(ts[..i][0]);
      StoredStops(later, i - 1);
    }
  }

  /** The state of the streaming loop before transfer `i`. */
  ghost predicate Streamed(ts: seq<Transfer>, i: nat, before: map<int, Byte>, now: map<int, Byte>, off: nat, written: nat) {
    && i <= |ts| && AllStored(ts[..i])
    && written == |StoredBytes(ts[..i])| && Wrote(before, now, off, StoredBytes(ts[..i]))
  }

  lemma StreamStarts(ts: seq<Transfer>, image: map<int, Byte>, off: nat)
    ensures Streamed(ts, 0, image, image, off, 0)
  {
    assert ts[..0] == [];
  }

  /** One turn of the streaming loop. */
  lemma StreamStep(ts: seq<Transfer>, i: nat, before: map<int, Byte>, mid: map<int, Byte>, after: map<int, Byte>,
                   off: nat, written: nat)
    requires i < |ts| && Streamed(ts, i, before, mid, off, written) && Wrote(mid, after, off + written, StoredOf(ts[i]))
    ensures var written' := written + |StoredOf(ts[i])|;
            if Whole(ts[i]) then Streamed(ts, i + 1, before, after, off, written')
            else !AllStored(ts) && written' == |StoredBytes(ts)| && Wrote(before, after, off, StoredBytes(ts))
  {
    StoredSnoc(ts, i);
    WroteMore(before, mid, after, off, StoredBytes(ts[..i]), StoredOf(ts[i]));
    if Whole(ts[i]) {
      AllStoredNext(ts, i);
    } else {
      StoredStops(ts, i);
    }
  }

  lemma StreamEnds(ts: seq<Transfer>, before: map<int, Byte>, now: map<int, Byte>, off: nat, written: nat)
    requires Streamed(ts, |ts|, before, now, off, written)
    ensures AllStored(ts) && written == |StoredBytes(ts)| && Wrote(before, now, off, StoredBytes(ts))
  {
    assert ts[..|ts|] == ts;
  }

  lemma AllStoredNext(ts: seq<Transfer>, i: nat)
    requires i < |ts| && AllStored(ts[..i]) && Whole(ts[i])
    ensures AllStored(ts[..i + 1])
  {
    PrefixSnoc(ts, i);
  }
}

module Uploads {
  import opened Base
  import opened Ranges
  import opened RangeSets
  import opened BlockMarks
  import opened BlockSizes
  import opened Bitmaps
  import opened UploadSpec
  import opened UploadBlocks
  import opened UploadFiles
  import opened UploadPieces
  import PF = PageFormat

  datatype UploadError =
    | BlockAlignment | ExceedsExpectedSize | ChecksumMismatch | PieceHashMismatch
    | WriteFailed | ReadFailed | SizeMismatch | Incomplete | PiecesUnverified

  /** With piece hashes the file is whole blocks, so an accepted chunk is too, and it lies inside the file. */
  lemma AcceptedPieces(offset: nat, len: nat, bs: nat, size: nat)
    requires bs >= 1 && offset % bs == 0 && size % bs == 0 && len > 0 && ValidBlockChunk(offset, len, bs, size)
    ensures var n := len / bs;
            && len == n * bs && offset / bs + n <= BlockCountFor(size, bs)
            && (offset + len - 1) / bs == offset / bs + n - 1
  {
    if len % bs != 0 {
      MultipleIs(offset, bs);
      MultipleIs(size, bs);
      DifferenceOfMultiples(size, offset, bs);
    }
    MultipleIs(len, bs);
    MultipleIs(size, bs);
    SumOfMultiples(offset, len, bs);
    var k := offset / bs + len / bs;
    MulStrict(-1, 0, bs);
    if k > size / bs {
      MulStrict(size / bs, k, bs);
    }
    MulMono(k, 0, bs);
    LastBlockEnd(offset + len, k, bs);
  }

  lemma DifferenceOfMultiples(a: nat, b: nat, d: nat)
    requires d >= 1 && b <= a && a % d == 0 && b % d == 0
    ensures (a - b) % d == 0
  {
    MultipleIs(a, d);
    MultipleIs(b, d);
    assert a - b == (a / d - b / d) * d;
    MulMono(a / d + 1, b / d, d);
    assert (a / d + 1) * d == (a / d) * d + d;
    MultipleMod(a / d - b / d, d);
  }

  lemma MultipleMod(q: nat, d: nat)
    requires d >= 1
    ensures (q * d) % d == 0
    decreases q
  {
    var x := q * d;
    Quotient(x, d);
    assert x == (x / d) * d + x % d;
    MulMono(x / d + 1, q, d);
    MulMono(q + 1, x / d, d);
    assert (q + 1) * d == q * d + d && (x / d + 1) * d == (x / d) * d + d;
  }

  /** Where the loop over a chunk's blocks marks. */
  method MarkAll(bitmap: BlockBitmap, first: nat, last: int)
    requires bitmap.Valid()
    modifies bitmap.blocks
    ensures bitmap.Marks() == MarkBlocks(old(bitmap.Marks()), first, last)
  {
    ghost var before := bitmap.Marks();
    var b := first;
    MarkNone(before, first);
    while b <= last
      invariant first <= b && bitmap.Marks() == MarkBlocks(before, first, Min(b - 1, last))
      invariant b <= last + 1 || b == first
      decreases last - b
    {
      MarkOneMore(before, first, b);
      bitmap.Mark(b);
      b := b + 1;
    }
    if first > last {
      assert MarkBlocks(before, first, last) == before;
    }
  }

  /** The staged data file; `image` records what was written last at each position. */
  class DataFile {
    var file: Bytes
    ghost var image: map<int, Byte>

    ghost predicate Valid()
      reads this
    {
      Holds(file, image)
    }

    /** Begin: a known size is preallocated, but nothing has been written. */
    constructor (expectedSize: nat)
      ensures Valid() && image == map[] && |file| == expectedSize
    {
      file := PF.Zeros(expectedSize);
      image := map[];
    }

    method WriteAt(off: nat, x: Bytes)
      requires Valid()
      modifies this
      ensures Valid() && file == Put(old(file), off, x) && Wrote(old(image), image, off, x)
    {
      ghost var before := image;
      image := before + Placed(off, x);
      PutHolds(file, before, image, off, x);
      if |x| > 0 {
        file := PF.WriteAt(file, off, x);
      }
    }

    /** The streaming loop of both write paths: every byte that got through is in the file, whatever happens after. */
    method Stream(off: nat, ts: seq<Transfer>, readFails: bool) returns (written: nat, error: Option<UploadError>)
      requires Valid()
      modifies this
      ensures Valid() && Wrote(old(image), image, off, StoredBytes(ts)) && written == |StoredBytes(ts)|
      ensures error == if !AllStored(ts) then Some(WriteFailed) else if readFails then Some(ReadFailed) else None
    {
      written := 0;
      ghost var before := image;
      var i := 0;
      StreamStarts(ts, image, off);
      while i < |ts|
        invariant i <= |ts| && Valid() && Streamed(ts, i, before, image, off, written)
      {
        ghost var mid := image;
        WriteAt(off + written, StoredOf(ts[i]));
        StreamStep(ts, i, before, mid, image, off, written);
        written := written + |StoredOf(ts[i])|;
        if !Whole(ts[i]) {
          return written, Some(WriteFailed);
        }
        i := i + 1;
      }
      StreamEnds(ts, before, image, off, written);
      error := if readFails then Some(ReadFailed) else None;
    }
  }

  /** A session in block-aligned mode. */
  class AlignedSession {
    const bs: nat
    const size: nat
    const pieces: seq<nat>
    const hash: Bytes -> nat
    const announced: Option<nat>
    const data: DataFile
    const bitmap: BlockBitmap
    const verified: BlockBitmap
    ghost var held: map<nat, Bytes>

    /** What the session was begun with. */
    ghost predicate Begun() {
      && bs >= 1 && bitmap.Valid() && verified.Valid() && bitmap.blocks != verified.blocks
      && bitmap.blockCount == verified.blockCount == BlockCountFor(size, bs)
      && (pieces != [] ==> size % bs == 0 && |pieces| == bitmap.blockCount)
    }

    /**
     Every byte of a marked block has been written, and is in the file as it was
     written last. Every verified block matched its piece hash with the bytes in
     `held`, those it had when it was checked.
     */
    ghost predicate Valid()
      reads this, data, bitmap.blocks, verified.blocks
    {
      && Begun() && data.Valid() && MarksBacked(bitmap.Marks(), data.image.Keys, bs, size)
      && (pieces != [] ==> |data.file| == size && HeldOk(PieceHashes(), verified.Marks(), held))
    }

    /** Every verified block still has the bytes it was checked with. */
    ghost predicate Intact()
      requires Begun()
      reads this, data, verified.blocks
    {
      HeldIntact(data.file, bs, verified.Marks(), held)
    }

    /** `announced` is the checksum of the whole file, if the upload was begun with one. */
    constructor (bs: nat, size: nat, pieces: seq<nat>, hash: Bytes -> nat, announced: Option<nat>)
      requires bs >= 1 && size > 0
      requires pieces != [] ==> size % bs == 0 && |pieces| == BlockCountFor(size, bs)
      ensures Valid() && Intact() && this.bs == bs && this.size == size && this.pieces == pieces
      ensures this.hash == hash && this.announced == announced && data.image == map[]
      ensures forall b :: 0 <= b < bitmap.blockCount ==> !bitmap.Marks()[b] && !verified.Marks()[b]
      ensures fresh(data) && fresh(bitmap.blocks) && fresh(verified.blocks)
    {
      this.bs, this.size, this.pieces, this.hash, this.announced := bs, size, pieces, hash, announced;
      data := new DataFile(size);
      bitmap := new BlockBitmap(BlockCountFor(size, bs));
      verified := new BlockBitmap(BlockCountFor(size, bs));
      held := map[];
    }

    /**
     The streaming path: bytes go to the file as they come, and blocks are marked only
     if the whole chunk arrived and is acceptable. A failure marks nothing.
     */
    method WriteStream(offset: nat, ts: seq<Transfer>, readFails: bool) returns (r: Result<(), UploadError>)
      requires Valid() && offset % bs == 0 && pieces == []
      modifies data, bitmap.blocks
      ensures Valid() && Wrote(old(data.image), data.image, offset, StoredBytes(ts))
      ensures var n := |StoredBytes(ts)|;
              r == (if !AllStored(ts) then Err(WriteFailed) else if readFails then Err(ReadFailed)
                    else if n == 0 || ValidBlockChunk(offset, n, bs, size) then Ok(())
                    else if n % bs != 0 then Err(BlockAlignment) else Err(ExceedsExpectedSize))
              && bitmap.Marks() == if r.Ok? then WithChunk(old(bitmap.Marks()), offset, n, bs) else old(bitmap.Marks())
    {
      ghost var m, before := bitmap.Marks(), data.image;
      var n, error := data.Stream(offset, ts, readFails);
      StillBacked(m, before, data.image, offset, StoredBytes(ts), bs, size);
      if error.Some? {
        return Err(error.value);
      }
      if n == 0 {
        return Ok(());
      }
      if !ValidBlockChunk(offset, n, bs, size) {
        if n % bs != 0 {
          return Err(BlockAlignment);
        }
        return Err(ExceedsExpectedSize);
      }
      AcceptedKeepsBacked(m, data.image.Keys, offset, n, bs, size);
      MarkAll(bitmap, FirstBlock(offset, bs), LastBlock(offset, n, bs));
      return Ok(());
    }

    function PieceHashes(): Pieces {
      Pieces(bs, pieces, hash)
    }

    method CheckPiece(chunk: Bytes, first: nat, k: nat, n: nat) returns (ok: bool)
      requires Begun() && pieces != [] && |chunk| == n * bs && k < n && first + n <= bitmap.blockCount
      modifies verified.blocks, this`held
      ensures held == if ok && !old(verified.Marks())[first + k] then old(held)[first + k := PieceOf(chunk, k, bs)]
                      else old(held)
      ensures ok <==> PieceOk(PieceHashes(), old(verified.Marks()), chunk, first, k)
      ensures verified.Marks() == if ok then old(verified.Marks())[first + k := true] else old(verified.Marks())
    {
      var b := first + k;
      assert verified.Marks()[b] == verified.blocks[b / 64][b % 64];
      if verified.blocks[b / 64][b % 64] {
        assert verified.Marks()[b := true] == verified.Marks();
        return true;
      }
      PieceInside(chunk, k, n, bs);
      if hash(chunk[k * bs..k * bs + bs]) != pieces[b] {
        return false;
      }
      verified.Mark(b);
      held := held[b := PieceOf(chunk, k, bs)];
      return true;
    }

    /**
     The piece loop over an accepted chunk of `n` blocks: it succeeds exactly if every
     block that was not verified before matches its piece hash. A block verified
     before is not looked at again, whatever bytes it has now; what is recorded for
     it stays, and each newly verified block is recorded with the chunk's bytes.
     */
    method CheckPieces(chunk: Bytes, first: nat, n: nat) returns (ok: bool)
      requires Begun() && pieces != [] && |chunk| == n * bs && first + n <= bitmap.blockCount
      modifies verified.blocks, this`held
      ensures Recorded(PieceHashes(), old(verified.Marks()), verified.Marks(), old(held), held, chunk, first)
      ensures ok <==> PiecesOk(PieceHashes(), old(verified.Marks()), chunk, first, n)
      ensures ok ==> verified.Marks() == MarkBlocks(old(verified.Marks()), first, first + n - 1)
    {
      ghost var was, before := verified.Marks(), held;
      var k := 0;
      LoopStarts(PieceHashes(), was, held, chunk, first);
      while k < n
        invariant 0 <= k <= n && Looping(PieceHashes(), was, verified.Marks(), before, held, chunk, first, k)
      {
        ghost var now, heldNow := verified.Marks(), held;
        var one := CheckPiece(chunk, first, k, n);
        LoopTurn(PieceHashes(), was, now, verified.Marks(), before, heldNow, held, chunk, first, k, one, n);
        if !one {
          return false;
        }
        k := k + 1;
      }
      LoopEnds(PieceHashes(), was, verified.Marks(), before, held, chunk, first, n);
      return true;
    }

    /** What is refused before anything is written. */
    function Refusal(offset: nat, chunk: Bytes, readFails: bool, expected: Option<nat>): Option<UploadError>
      requires bs >= 1
    {
      if readFails then Some(ReadFailed)
      else if chunk == [] then None
      else if !ValidBlockChunk(offset, |chunk|, bs, size) then
        Some(if |chunk| % bs != 0 then BlockAlignment else ExceedsExpectedSize)
      else if expected.Some? && hash(chunk) != expected.value then Some(ChecksumMismatch)
      else None
    }

    /** What follows the write of an accepted chunk: its blocks are marked, then its pieces checked. */
    method MarkAndCheck(offset: nat, chunk: Bytes) returns (r: Result<(), UploadError>)
      requires Valid() && offset % bs == 0 && |chunk| > 0 && ValidBlockChunk(offset, |chunk|, bs, size)
      requires SpanWritten(data.image.Keys, offset, offset + |chunk|)
      modifies bitmap.blocks, verified.blocks, this`held
      ensures Valid()
      ensures pieces != [] ==> Recorded(PieceHashes(), old(verified.Marks()), verified.Marks(), old(held), held, chunk,
                                        FirstBlock(offset, bs))
      ensures bitmap.Marks() == WithChunk(old(bitmap.Marks()), offset, |chunk|, bs)
      ensures r == if pieces == []
                      || PiecesOk(PieceHashes(), old(verified.Marks()), chunk, FirstBlock(offset, bs), BlocksIn(|chunk|, bs))
                   then Ok(()) else Err(PieceHashMismatch)
      ensures pieces != [] && r.Ok? ==>
                verified.Marks() == WithChunk(old(verified.Marks()), offset, |chunk|, bs)
    {
      AcceptedKeepsBacked(bitmap.Marks(), data.image.Keys, offset, |chunk|, bs, size);
      ghost var was := verified.Marks();
      MarkAll(bitmap, FirstBlock(offset, bs), LastBlock(offset, |chunk|, bs));
      assert verified.Marks() == was;
      if |pieces| > 0 {
        AcceptedPieces(offset, |chunk|, bs, size);
        ghost var before := held;
        var ok := CheckPieces(chunk, FirstBlock(offset, bs), BlocksIn(|chunk|, bs));
        RecordedOk(PieceHashes(), was, verified.Marks(), before, held, chunk, FirstBlock(offset, bs));
        if !ok {
          return Err(PieceHashMismatch);
        }
      }
      return Ok(());
    }

    /**
     The buffered path: the chunk is checked first, so a chunk that is refused for its
     place or checksum writes nothing. Only a piece mismatch comes after the marking;
     the block then stays marked but unverified. Verified blocks stay intact exactly
     if the bytes that reach the file leave those verified before as they were.
     */
    method WriteVerified(offset: nat, chunk: Bytes, readFails: bool, expected: Option<nat>, outcome: Transfer)
      returns (r: Result<(), UploadError>)
      requires Valid() && offset % bs == 0 && outcome.data == chunk
      modifies data, bitmap.blocks, verified.blocks, this`held
      ensures Valid()
      ensures var reached := Refusal(offset, chunk, readFails, expected).None? && chunk != [];
              pieces != [] && old(Intact()) ==>
                (Intact() <==> AllKept(old(verified.Marks()), old(held), bs, offset, if reached then StoredOf(outcome) else []))
      ensures var reached := Refusal(offset, chunk, readFails, expected).None? && chunk != [];
              && Wrote(old(data.image), data.image, offset, if reached then StoredOf(outcome) else [])
              && bitmap.Marks() == (if reached && Whole(outcome) then WithChunk(old(bitmap.Marks()), offset, |chunk|, bs)
                                    else old(bitmap.Marks()))
      ensures var refused := Refusal(offset, chunk, readFails, expected);
              r == if refused.Some? then Err(refused.value)
                   else if chunk == [] then Ok(())
                   else if !Whole(outcome) then Err(WriteFailed)
                   else if pieces == []
                      || PiecesOk(PieceHashes(), old(verified.Marks()), chunk, FirstBlock(offset, bs), BlocksIn(|chunk|, bs))
                     then Ok(())
                   else Err(PieceHashMismatch)
      ensures pieces != [] && r.Ok? && chunk != [] ==>
                verified.Marks() == WithChunk(old(verified.Marks()), offset, |chunk|, bs)
    {
      var refused := Refusal(offset, chunk, readFails, expected);
      ghost var was, heldBefore, file := verified.Marks(), held, data.file;
      ghost var first := FirstBlock(offset, bs);
      if pieces != [] {
        NothingKeepsAll(PieceHashes(), was, held, offset);
        RecordedStarts(PieceHashes(), was, held, chunk, first);
      }
      if refused.Some? {
        return Err(refused.value);
      }
      if |chunk| == 0 {
        return Ok(());
      }
      MultipleIs(offset, bs);
      ghost var m, before := bitmap.Marks(), data.image;
      data.WriteAt(offset, StoredOf(outcome));
      StillBacked(m, before, data.image, offset, StoredOf(outcome), bs, size);
      if pieces != [] {
        PutSame(file, offset, StoredOf(outcome));
      }
      if !Whole(outcome) {
        if pieces != [] && HeldIntact(file, bs, was, heldBefore) {
          IntactAfter(PieceHashes(), file, was, was, heldBefore, heldBefore, offset, StoredOf(outcome), chunk, first);
        }
        return Err(WriteFailed);
      }
      r := MarkAndCheck(offset, chunk);
      if pieces != [] && HeldIntact(file, bs, was, heldBefore) {
        IntactAfter(PieceHashes(), file, was, verified.Marks(), heldBefore, held, offset, chunk, chunk, first);
      }
    }

    /**
     writeChunkAligned: a misaligned offset is refused before anything happens, and the
     buffered path is taken only where something is to be verified. Whatever goes
     wrong, no block is marked unless its bytes are all written; only a piece mismatch
     leaves marks behind an error.
     */
    method WriteChunk(offset: nat, ts: seq<Transfer>, readFails: bool, expected: Option<nat>, outcome: Transfer)
      returns (r: Result<(), UploadError>)
      requires Valid()
      modifies data, bitmap.blocks, verified.blocks, this`held
      ensures Valid()
      ensures var reached := offset % bs == 0 && Refusal(offset, outcome.data, readFails, expected).None? && outcome.data != [];
              pieces != [] && old(Intact()) ==>
                (Intact() <==> AllKept(old(verified.Marks()), old(held), bs, offset, if reached then StoredOf(outcome) else []))
      ensures offset % bs != 0 ==> r == Err(BlockAlignment) && data.image == old(data.image)
      ensures r.Err? && r.error != PieceHashMismatch ==> bitmap.Marks() == old(bitmap.Marks())
      ensures r.Ok? || r.error == PieceHashMismatch ==>
                var n := if expected.None? && pieces == [] then |StoredBytes(ts)| else |outcome.data|;
                bitmap.Marks() == WithChunk(old(bitmap.Marks()), offset, n, bs)
    {
      if offset % bs != 0 {
        if pieces != [] {
          NothingKeepsAll(PieceHashes(), verified.Marks(), held, offset);
        }
        return Err(BlockAlignment);
      }
      if expected.None? && |pieces| == 0 {
        r := WriteStream(offset, ts, readFails);
      } else {
        r := WriteVerified(offset, outcome.data, readFails, expected, outcome);
      }
    }

    /**
     Complete: it succeeds only if every byte of the file was written, and the file is
     exactly as long as announced. With piece hashes a completed file matches them
     if, and without hash collisions only if, no verified block has been given other
     bytes since it was checked. The announced checksum plays no part.
     */
    method Complete() returns (r: Result<Bytes, UploadError>)
      requires Valid()
      ensures r == if |data.file| != size then Err(SizeMismatch)
                   else if !AllMarked(bitmap.Marks()) then Err(Incomplete)
                   else if pieces != [] && !AllMarked(verified.Marks()) then Err(PiecesUnverified)
                   else Ok(data.file)
      ensures r.Ok? ==>
                && |r.value| == size && SpanWritten(data.image.Keys, 0, size)
                && forall x :: 0 <= x < size ==> x in data.image && r.value[x] == data.image[x]
      ensures r.Ok? && pieces != [] ==>
                && (Intact() ==> FileMatches(PieceHashes(), r.value))
                && (CollisionFree(hash) && FileMatches(PieceHashes(), r.value) ==> Intact())
    {
      if |data.file| != size {
        return Err(SizeMismatch);
      }
      var received := bitmap.IsComplete();
      if !received {
        return Err(Incomplete);
      }
      if |pieces| > 0 {
        var checked := verified.IsComplete();
        if !checked {
          return Err(PiecesUnverified);
        }
        MatchesIff(PieceHashes(), data.file, verified.Marks(), held);
      }
      AllMarkedWritten(bitmap.Marks(), data.image.Keys, bs, size);
      return Ok(data.file);
    }
  }

  lemma StillBacked(m: seq<bool>, before: map<int, Byte>, after: map<int, Byte>, offset: nat, x: Bytes, bs: nat, size: nat)
    requires MarksBacked(m, before.Keys, bs, size) && Wrote(before, after, offset, x)
    ensures MarksBacked(m, after.Keys, bs, size) && SpanWritten(after.Keys, offset, offset + |x|)
  {
    WroteKeys(before, after, offset, x);
    MoreWritten(m, before.Keys, after.Keys, bs, size);
  }
}

/** A session without block size: the received positions are an interval set. */
module RangeUploads {
  import opened Base
  import opened Ranges
  import opened RangeSets
  import opened UploadSpec
  import opened UploadFiles
  import opened Uploads

  /** Every received position has been written. */
  ghost predicate Backed(rs: seq<ByteRange>, image: map<int, Byte>) {
    forall x :: Has(rs, x) ==> x in image
  }

  lemma BackedMore(rs: seq<ByteRange>, before: map<int, Byte>, after: map<int, Byte>, offset: nat, x: Bytes)
    requires Backed(rs, before) && Wrote(before, after, offset, x)
    ensures Backed(rs, after)
  {
  }

  class RangeSession {
    const expectedSize: nat
    const hash: Bytes -> nat
    const data: DataFile
    const received: RangeSet

    ghost predicate Valid()
      reads this, data, received
    {
      data.Valid() && received.Valid() && Backed(received.ranges, data.image)
    }

    constructor (expectedSize: nat, hash: Bytes -> nat)
      ensures Valid() && this.expectedSize == expectedSize && received.ranges == [] && data.image == map[]
      ensures fresh(data) && fresh(received)
    {
      this.expectedSize, this.hash := expectedSize, hash;
      data := new DataFile(expectedSize);
      received := new RangeSet();
    }

    /**
     The chunk's bytes go to the file first. It is recorded only if it arrived whole,
     fits, and has the announced checksum; the checksum of a chunk whose range is
     already received is not looked at.
     */
    method WriteChunk(offset: nat, ts: seq<Transfer>, readFails: bool, expected: Option<nat>)
      returns (r: Result<(), UploadError>)
      requires Valid()
      modifies data, received
      ensures Valid() && Wrote(old(data.image), data.image, offset, StoredBytes(ts))
      ensures var n := |StoredBytes(ts)|;
              var known := n > 0 && forall x :: offset <= x < offset + n ==> Has(old(received.ranges), x);
              r == (if !AllStored(ts) then Err(WriteFailed) else if readFails then Err(ReadFailed)
                    else if n == 0 then Ok(())
                    else if expectedSize > 0 && offset + n > expectedSize then Err(ExceedsExpectedSize)
                    else if known || expected.None? || hash(StoredBytes(ts)) == expected.value then Ok(())
                    else Err(ChecksumMismatch))
      ensures forall x :: Has(received.ranges, x)
                          <==> Has(old(received.ranges), x) || (r.Ok? && offset <= x < offset + |StoredBytes(ts)|)
    {
      ghost var before := data.image;
      var n, error := data.Stream(offset, ts, readFails);
      BackedMore(received.ranges, before, data.image, offset, StoredBytes(ts));
      if error.Some? {
        return Err(error.value);
      }
      if n == 0 {
        return Ok(());
      }
      var end := offset + n;
      if expectedSize > 0 && end > expectedSize {
        return Err(ExceedsExpectedSize);
      }
      var known := received.Contains(offset, end);
      if known {
        return Ok(());
      }
      if expected.Some? && hash(StoredBytes(ts)) != expected.value {
        return Err(ChecksumMismatch);
      }
      received.Add(offset, end);
      return Ok(());
    }

    /** Complete: it succeeds only if every byte of the file was written and the optional whole-file checksum holds. */
    method Complete(expectedHash: Option<nat>) returns (r: Result<Bytes, UploadError>)
      requires Valid()
      ensures r.Ok? ==>
                && |r.value| == |data.file| && (expectedSize > 0 ==> |r.value| == expectedSize)
                && (forall x :: Has(received.ranges, x) <==> 0 <= x < |r.value|)
                && SpanWritten(data.image.Keys, 0, |r.value|)
                && (forall x :: 0 <= x < |r.value| ==> x in data.image && r.value[x] == data.image[x])
                && (expectedHash.Some? ==> hash(r.value) == expectedHash.value)
      ensures r == if expectedSize > 0 && |data.file| != expectedSize then Err(SizeMismatch)
                   else if !forall x :: Has(received.ranges, x) <==> 0 <= x < |data.file| then Err(Incomplete)
                   else if expectedHash.Some? && hash(data.file) != expectedHash.value then Err(ChecksumMismatch)
                   else Ok(data.file)
    {
      if expectedSize > 0 && |data.file| != expectedSize {
        return Err(SizeMismatch);
      }
      var expSize := expectedSize;
      if expSize == 0 {
        expSize := |data.file|;
      }
      var complete := received.IsComplete(expSize);
      if !complete {
        return Err(Incomplete);
      }
      if expectedHash.Some? && hash(data.file) != expectedHash.value {
        return Err(ChecksumMismatch);
      }
      return Ok(data.file);
    }
  }
}
