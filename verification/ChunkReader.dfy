/** Positions in a blob stored as a list of chunks. */
module ChunkOffsets {
  import opened Base

  /** Where chunk `i` starts in the blob. */
  function Offset(chunks: seq<Bytes>, i: nat): nat
    requires i <= |chunks|
  {
    if i == 0 then 0 else Offset(chunks, i - 1) + |chunks[i - 1]|
  }

  function Total(chunks: seq<Bytes>): nat {
    Offset(chunks, |chunks|)
  }

  lemma {:induction false} OffsetsGrow(chunks: seq<Bytes>, i: nat, j: nat)
    requires i <= j <= |chunks|
    ensures Offset(chunks, i) <= Offset(chunks, j)
    decreases j
  {
    if i < j {
      OffsetsGrow(chunks, i, j - 1);
    }
  }

  lemma {:induction false} OffsetIsLength(chunks: seq<Bytes>, i: nat)
    requires i <= |chunks|
    ensures Offset(chunks, i) == |Flatten(chunks[..i])|
    decreases i
  {
    if i > 0 {
      OffsetIsLength(chunks, i - 1);
      PrefixSnoc(chunks, i - 1);
      FlattenSnoc(chunks[..i - 1], chunks[i - 1]);
    }
  }

  lemma TotalIsLength(chunks: seq<Bytes>)
    ensures Total(chunks) == |Flatten(chunks)|
  {
    OffsetIsLength(chunks, |chunks|);
    assert chunks[..|chunks|] == chunks;
  }

  /** Chunk `i` is the stretch of the blob from its offset on. */
  lemma ChunkAt(chunks: seq<Bytes>, i: nat)
    requires i < |chunks|
    ensures Offset(chunks, i + 1) <= |Flatten(chunks)|
    ensures Flatten(chunks)[Offset(chunks, i)..Offset(chunks, i + 1)] == chunks[i]
  {
    OffsetIsLength(chunks, i);
    assert chunks == chunks[..i] + chunks[i..] && chunks[i..] == [chunks[i]] + chunks[i + 1..];
    FlattenAppend(chunks[..i], chunks[i..]);
    assert Flatten(chunks[i..]) == chunks[i] + Flatten(chunks[i + 1..]);
    assert Flatten(chunks) == Flatten(chunks[..i]) + (chunks[i] + Flatten(chunks[i + 1..]));
  }

  /** Chunk `i` contains position `at`. */
  predicate Contains(chunks: seq<Bytes>, i: nat, at: nat) {
    i < |chunks| && Offset(chunks, i) <= at < Offset(chunks, i + 1)
  }

  lemma OneContains(chunks: seq<Bytes>, i: nat, j: nat, at: nat)
    requires Contains(chunks, i, at) && Contains(chunks, j, at)
    ensures i == j
  {
    if i < j {
      OffsetsGrow(chunks, i + 1, j);
    } else if j < i {
      OffsetsGrow(chunks, j + 1, i);
    }
  }

  /** resolveChunkOffset: the one chunk that contains the position, or the end of the list. */
  method ResolveChunkOffset(chunks: seq<Bytes>, at: nat) returns (idx: nat, intra: nat)
    ensures if at < Total(chunks) then Contains(chunks, idx, at) && intra == at - Offset(chunks, idx)
            else idx == |chunks| && intra == 0
  {
    var cumulative := 0;
    var i := 0;
    while i < |chunks|
      invariant 0 <= i <= |chunks| && cumulative == Offset(chunks, i) <= at
    {
      var next := cumulative + |chunks[i]|;
      if at < next {
        OffsetsGrow(chunks, i + 1, |chunks|);
        return i, at - cumulative;
      }
      cumulative := next;
      i := i + 1;
    }
    return |chunks|, 0;
  }

  /** How many bytes of the blob follow position `at` up to the end of the chunk that contains it. */
  ghost function LeftInChunk(chunks: seq<Bytes>, at: nat): (n: nat)
    requires at < Total(chunks)
    ensures exists i: nat :: Contains(chunks, i, at) && n == Offset(chunks, i + 1) - at
  {
    SomeContains(chunks, |chunks|, at);
    var i: nat :| Contains(chunks, i, at);
    Offset(chunks, i + 1) - at
  }

  lemma {:induction false} SomeContains(chunks: seq<Bytes>, n: nat, at: nat)
    requires n <= |chunks| && at < Offset(chunks, n)
    ensures exists i: nat :: Contains(chunks, i, at)
    decreases n
  {
    if Offset(chunks, n - 1) <= at {
      assert Contains(chunks, n - 1, at);
    } else {
      SomeContains(chunks, n - 1, at);
    }
  }

  lemma LeftIs(chunks: seq<Bytes>, i: nat, at: nat)
    requires Contains(chunks, i, at) && at < Total(chunks)
    ensures LeftInChunk(chunks, at) == Offset(chunks, i + 1) - at
  {
    var j: nat :| Contains(chunks, j, at) && LeftInChunk(chunks, at) == Offset(chunks, j + 1) - at;
    OneContains(chunks, i, j, at);
  }

  /** The tail of chunk `i` is what the blob holds from there to the chunk's end. */
  lemma TailBytes(chunks: seq<Bytes>, i: nat, left: nat, n: nat)
    requires i < |chunks| && n <= left <= |chunks[i]|
    ensures var at := Offset(chunks, i + 1) - left;
            at + n <= |Flatten(chunks)| && Flatten(chunks)[at..at + n] == chunks[i][|chunks[i]| - left..][..n]
  {
    ChunkAt(chunks, i);
    Within(Flatten(chunks), Offset(chunks, i), Offset(chunks, i + 1), |chunks[i]| - left, n);
  }

  lemma Within(b: Bytes, lo: nat, hi: nat, skip: nat, n: nat)
    requires lo <= hi <= |b| && lo + skip + n <= hi
    ensures b[lo..hi][skip..][..n] == b[lo + skip..lo + skip + n]
  {
    var x, y := b[lo..hi][skip..][..n], b[lo + skip..lo + skip + n];
    assert |x| == |y| && forall k :: 0 <= k < n ==> x[k] == y[k];
  }
}

/** The seekable reader over a blob's chunks. */
module ChunkReaders {
  import opened Base
  import opened ChunkOffsets
  import LE = LittleEndian

  datatype ReadStatus = Served | EndOfFile | ReadFailed

  datatype SeekError = InvalidWhence | NegativeOffset

  /** Seek's whence argument: any number but 0, 1 and 2 is refused. */
  const SEEK_START := 0
  const SEEK_CURRENT := 1
  const SEEK_END := 2

  /**
   The reader's state stands for position `absPos` of the blob: what is still in
   the buffer ends where the next chunk to load begins.
   */
  ghost predicate Positioned(chunks: seq<Bytes>, idx: nat, pendingSkip: nat, buf: Bytes, pos: nat, absPos: nat) {
    && idx <= |chunks| && pos <= |buf|
    && if pos < |buf| then
         var left := |buf| - pos;
         && idx >= 1 && pendingSkip == 0 && left <= |chunks[idx - 1]|
         && buf[pos..] == chunks[idx - 1][|chunks[idx - 1]| - left..]
         && absPos == Offset(chunks, idx) - left
       else if idx < |chunks| then
         absPos == Offset(chunks, idx) + pendingSkip && (pendingSkip == 0 || pendingSkip < |chunks[idx]|)
       else
         absPos >= Total(chunks) && pendingSkip == 0
  }

  /** Chunk `i` holds position `at`, or is empty and lies right in front of it. */
  predicate AtChunk(chunks: seq<Bytes>, i: nat, at: nat) {
    i < |chunks| && (Contains(chunks, i, at) || (chunks[i] == [] && Offset(chunks, i) == at))
  }

  lemma ServesNext(chunks: seq<Bytes>, idx: nat, pendingSkip: nat, buf: Bytes, pos: nat, absPos: nat, n: nat)
    requires Positioned(chunks, idx, pendingSkip, buf, pos, absPos) && pos < |buf| && n <= |buf| - pos
    ensures absPos < Total(chunks) && LeftInChunk(chunks, absPos) == |buf| - pos
    ensures absPos + n <= |Flatten(chunks)| && Flatten(chunks)[absPos..absPos + n] == buf[pos..pos + n]
    ensures Positioned(chunks, idx, pendingSkip, buf, pos + n, absPos + n)
  {
    var left := |buf| - pos;
    OffsetsGrow(chunks, idx, |chunks|);
    LeftIs(chunks, idx - 1, absPos);
    TailBytes(chunks, idx - 1, left, n);
    assert buf[pos..][..n] == buf[pos..pos + n];
    var tail := chunks[idx - 1][|chunks[idx - 1]| - left..];
    assert buf[pos + n..] == buf[pos..][n..] == tail[n..] == chunks[idx - 1][|chunks[idx - 1]| - (left - n)..];
  }

  lemma LoadsNext(chunks: seq<Bytes>, idx: nat, pendingSkip: nat, buf: Bytes, absPos: nat)
    requires Positioned(chunks, idx, pendingSkip, buf, |buf|, absPos) && idx < |chunks|
    ensures var skip := Min(pendingSkip, |chunks[idx]|);
            Positioned(chunks, idx + 1, pendingSkip - skip, chunks[idx][skip..], 0, absPos)
  {
    var skip := Min(pendingSkip, |chunks[idx]|);
    assert chunks[idx][skip..][0..] == chunks[idx][skip..];
  }

  class ChunkReader {
    /** The payloads behind the chunk locations; the index records each one's length. */
    const chunks: seq<Bytes>
    var totalSize: nat
    var idx: nat
    var pendingSkip: nat
    var buf: Bytes
    var pos: nat
    var absPos: nat

    ghost predicate Valid()
      reads this
    {
      && totalSize == Total(chunks) < LE.TWO_63 && absPos < LE.TWO_63
      && Positioned(chunks, idx, pendingSkip, buf, pos, absPos)
    }

    constructor (chunks: seq<Bytes>)
      requires Total(chunks) < LE.TWO_63
      ensures Valid() && absPos == 0 && this.chunks == chunks
    {
      this.chunks := chunks;
      idx, pendingSkip, buf, pos, absPos := 0, 0, [], 0, 0;
      totalSize := 0;
      new;
      var i := 0;
      while i < |chunks|
        invariant 0 <= i <= |chunks| && totalSize == Offset(chunks, i)
        invariant this.chunks == chunks && idx == 0 && pendingSkip == 0 && buf == [] && pos == 0 && absPos == 0
      {
        totalSize := totalSize + |chunks[i]|;
        i := i + 1;
      }
    }

    /** Copies what fits from the buffered rest of a chunk. */
    method Serve(p: array<Byte>) returns (n: nat)
      requires Valid() && pos < |buf|
      modifies this`pos, this`absPos, p
      ensures Valid() && absPos == old(absPos) + n && n <= p.Length && p[n..] == old(p[n..])
      ensures old(absPos) < Total(chunks) && n == Min(p.Length, LeftInChunk(chunks, old(absPos)))
      ensures old(absPos) + n <= |Flatten(chunks)| && p[..n] == Flatten(chunks)[old(absPos)..old(absPos) + n]
    {
      n := Min(p.Length, |buf| - pos);
      ServesNext(chunks, idx, pendingSkip, buf, pos, absPos, n);
      Total63(chunks, absPos, n);
      forall i | 0 <= i < n {
        p[i] := buf[pos + i];
      }
      assert p[..n] == buf[pos..pos + n];
      pos := pos + n;
      absPos := absPos + n;
    }

    /** Takes the next chunk into the buffer, without what a seek left to skip. */
    method Load()
      requires Valid() && pos == |buf| && idx < |chunks|
      modifies this`idx, this`pendingSkip, this`buf, this`pos
      ensures Valid() && idx == old(idx) + 1
    {
      LoadsNext(chunks, idx, pendingSkip, buf, absPos);
      var data := chunks[idx];
      idx := idx + 1;
      if pendingSkip > 0 {
        var skip := pendingSkip;
        if skip > |data| {
          skip := |data|;
        }
        data := data[skip..];
        pendingSkip := pendingSkip - skip;
      }
      buf := data;
      pos := 0;
    }

    /**
     Read: the next bytes of the blob at the current position, as many as fit into
     `p` and the current chunk still has. `failing` are the chunks whose reads fail
     during this call; a failure moves the position nowhere, and only the chunk at
     the position, or an empty one in front of it, can cause it.
     */
    method Read(p: array<Byte>, failing: set<nat>) returns (n: nat, status: ReadStatus)
      requires Valid()
      modifies this`idx, this`pendingSkip, this`buf, this`pos, this`absPos, p
      ensures Valid() && absPos == old(absPos) + n && n <= p.Length && p[n..] == old(p[n..])
      ensures status == Served ==>
                && old(absPos) < Total(chunks)
                && n == Min(p.Length, LeftInChunk(chunks, old(absPos)))
                && old(absPos) + n <= |Flatten(chunks)|
                && p[..n] == Flatten(chunks)[old(absPos)..old(absPos) + n]
      ensures status == EndOfFile ==> n == 0 && old(absPos) >= Total(chunks)
      ensures status == ReadFailed ==> n == 0 && exists i: nat :: i in failing && AtChunk(chunks, i, old(absPos))
    {
      while !(pos < |buf|)
        invariant Valid() && absPos == old(absPos) && p[..] == old(p[..])
        decreases |chunks| - idx
      {
        if idx >= |chunks| {
          assert p[0..] == old(p[0..]);
          return 0, EndOfFile;
        }
        if idx in failing {
          assert p[0..] == old(p[0..]) && AtChunk(chunks, idx, absPos);
          return 0, ReadFailed;
        }
        Load();
      }
      n := Serve(p);
      status := Served;
    }

    /** Seek: moves the position, to the end and past it too; an invalid call moves nothing. */
    method Seek(offset: int, whence: int) returns (r: Result<nat, SeekError>)
      requires Valid() && -LE.TWO_63 <= offset < LE.TWO_63
      modifies this`idx, this`pendingSkip, this`buf, this`pos, this`absPos
      ensures Valid()
      ensures var base := if whence == SEEK_START then 0 else if whence == SEEK_CURRENT then old(absPos) else totalSize;
              var target := LE.Wrap64(base + offset);
              r == if whence !in {SEEK_START, SEEK_CURRENT, SEEK_END} then Err(InvalidWhence)
                   else if target < 0 then Err(NegativeOffset)
                   else Ok(target)
      ensures absPos == if r.Ok? then r.value else old(absPos)
      ensures r.Err? ==> unchanged(this)
    {
      var target;
      if whence == SEEK_START {
        target := offset;
      } else if whence == SEEK_CURRENT {
        target := LE.Wrap64(absPos + offset);
      } else if whence == SEEK_END {
        target := LE.Wrap64(totalSize + offset);
      } else {
        return Err(InvalidWhence);
      }
      if target < 0 {
        return Err(NegativeOffset);
      }
      var i, intra := ResolveChunkOffset(chunks, target);
      idx := i;
      pendingSkip := intra;
      buf := [];
      pos := 0;
      absPos := target;
      return Ok(target);
    }

    /** ReadAll with a copy buffer of `size` bytes: everything from the current position to the end. */
    method ReadAll(size: nat) returns (data: Bytes)
      requires Valid() && size >= 1
      modifies this`idx, this`pendingSkip, this`buf, this`pos, this`absPos
      ensures Valid() && absPos == Max(old(absPos), Total(chunks))
      ensures Min(old(absPos), Total(chunks)) <= |Flatten(chunks)|
      ensures data == Flatten(chunks)[Min(old(absPos), Total(chunks))..]
    {
      TotalIsLength(chunks);
      ghost var start := Min(absPos, Total(chunks));
      data := [];
      var p := new Byte[size];
      while true
        invariant Valid() && p.Length == size && fresh(p)
        invariant old(absPos) <= absPos && (absPos <= Total(chunks) || absPos == old(absPos))
        invariant data == Flatten(chunks)[start..Min(absPos, Total(chunks))]
        decreases Total(chunks) - absPos
      {
        ghost var at := absPos;
        var n, status := Read(p, {});
        if status == EndOfFile {
          break;
        }
        Joins(Flatten(chunks), start, at, n);
        data := data + p[..n];
      }
      assert Flatten(chunks)[start..Total(chunks)] == Flatten(chunks)[start..];
    }
  }

  lemma Joins(b: Bytes, from: nat, at: nat, n: nat)
    requires from <= at && at + n <= |b|
    ensures b[from..at] + b[at..at + n] == b[from..at + n]
  {
  }

  lemma Total63(chunks: seq<Bytes>, at: nat, n: nat)
    requires Total(chunks) < LE.TWO_63 && at < Total(chunks) && n <= LeftInChunk(chunks, at)
    ensures at + n < LE.TWO_63
  {
    var i: nat :| Contains(chunks, i, at) && LeftInChunk(chunks, at) == Offset(chunks, i + 1) - at;
    OffsetsGrow(chunks, i + 1, |chunks|);
  }
}
