/** The log file as volume.go writes and reads it: a growing buffer, and a cursor over the file's bytes. */
module WalFile {
  import opened Base
  import opened Parsing
  import opened WalFormat
  import LE = LittleEndian

  lemma EncodeManySnoc<T>(encode: T -> Bytes, xs: seq<T>, x: T)
    ensures EncodeMany(encode, xs + [x]) == EncodeMany(encode, xs) + encode(x)
  {
    if xs == [] {
      assert xs + [x] == [x];
    } else {
      assert (xs + [x])[1..] == xs[1..] + [x];
      EncodeManySnoc(encode, xs[1..], x);
      ConcatAssoc(encode(xs[0]), EncodeMany(encode, xs[1..]), encode(x));
    }
  }

  lemma EncodeHeadFlat(blobId: Bytes, count: nat)
    ensures EncodeHead(blobId, count) == LE.Put(MAGIC, 4) + LE.Put(|blobId|, 2) + blobId + LE.Put(count, 4)
  {
  }

  lemma EncodeChunkFlat(c: Chunk, buf: Bytes)
    ensures buf + LE.Put(|c.chunkId|, 2) + c.chunkId + LE.Put(c.seg, 8)
            + LE.Put(LE.ToUint64(c.pageOffset), 8) + LE.Put(LE.ToUint64(c.length), 8) == buf + EncodeChunk(c)
  {
    Flat5(buf, LE.Put(|c.chunkId|, 2), c.chunkId, LE.Put(c.seg, 8),
          LE.Put(LE.ToUint64(c.pageOffset), 8), LE.Put(LE.ToUint64(c.length), 8));
  }

  lemma Flat5(buf: Bytes, a: Bytes, b: Bytes, c: Bytes, d: Bytes, e: Bytes)
    ensures buf + a + b + c + d + e == buf + (a + (b + (c + (d + e))))
  {
  }

  lemma LoopStep(head: Bytes, chunks: seq<Chunk>, i: nat)
    requires i < |chunks|
    ensures head + EncodeMany(EncodeChunk, chunks[..i]) + EncodeChunk(chunks[i])
            == head + EncodeMany(EncodeChunk, chunks[..i + 1])
  {
    PrefixSnoc(chunks, i);
    EncodeManySnoc(EncodeChunk, chunks[..i], chunks[i]);
    ConcatAssoc(head, EncodeMany(EncodeChunk, chunks[..i]), EncodeChunk(chunks[i]));
  }

  /** The WAL file of one segment: every append adds one encoded entry at the end. */
  class Log {
    var data: Bytes

    constructor ()
      ensures data == []
    {
      data := [];
    }

    method Append(blobId: Bytes, chunks: seq<Chunk>)
      modifies this
      ensures data == old(data) + Encode(Entry(blobId, chunks))
    {
      var buf := LE.Put(MAGIC, 4);
      buf := buf + LE.Put(|blobId|, 2);
      buf := buf + blobId;
      buf := buf + LE.Put(|chunks|, 4);
      EncodeHeadFlat(blobId, |chunks|);
      ghost var head := EncodeHead(blobId, |chunks|);
      var i := 0;
      while i < |chunks|
        invariant 0 <= i <= |chunks|
        invariant buf == head + EncodeMany(EncodeChunk, chunks[..i])
        invariant data == old(data)
      {
        var c := chunks[i];
        ghost var before := buf;
        buf := buf + LE.Put(|c.chunkId|, 2);
        buf := buf + c.chunkId;
        buf := buf + LE.Put(c.seg, 8);
        buf := buf + LE.Put(LE.ToUint64(c.pageOffset), 8);
        buf := buf + LE.Put(LE.ToUint64(c.length), 8);
        EncodeChunkFlat(c, before);
        LoopStep(head, chunks, i);
        i := i + 1;
      }
      assert chunks[..|chunks|] == chunks;
      data := data + buf;
    }

    /** ParseWAL: every complete entry from the start, up to the first that does not decode. */
    method ParseAll(ns: string, pageSize: int) returns (entries: seq<Entry>)
      requires pageSize < LE.TWO_63
      ensures entries == Parse(data, ns, PageCapacity(pageSize))
    {
      entries := ParseEntries(ns, PageCapacity(pageSize));
    }

    method ParseEntries(ns: string, capacity: Capacity) returns (entries: seq<Entry>)
      ensures entries == Parse(data, ns, capacity)
    {
      entries := [];
      ghost var rest := Parse(data, ns, capacity);
      ghost var all := rest;
      assert data[0..] == data && [] + rest == rest;
      var off := 0;
      while off < |data|
        invariant off <= |data| && all == entries + rest
        invariant rest == Parse(data[off..], ns, capacity) && all == Parse(data, ns, capacity)
        decreases |data| - off
      {
        var entry, n, ok := DecodeWALEntry(data[off..], ns, capacity);
        ParseNext(data, ns, capacity, off, ok, entry, n);
        if !ok {
          assert entries + [] == entries;
          return;
        }
        rest := Parse(data[off + n..], ns, capacity);
        ConcatAssoc(entries, [entry], rest);
        entries := entries + [entry];
        off := off + n;
      }
      EmptyFails(ns, capacity);
      assert data[off..] == [] && entries + [] == entries;
    }
  }

  /** What is left to parse begins with the entry that decodes next. */
  lemma ParseNext(data: Bytes, ns: string, capacity: Capacity, off: nat, ok: bool, entry: Entry, n: nat)
    requires off <= |data| && (ok <==> Decode(data[off..], ns, capacity).Done?)
    requires ok ==> off + n <= |data| && Decode(data[off..], ns, capacity) == Done(entry, data[off..][n..])
    ensures Parse(data[off..], ns, capacity) == if ok then [entry] + Parse(data[off + n..], ns, capacity) else []
    ensures ok ==> n > 0
  {
    EntryItemConsumes(ns, capacity);
    DecodeShrinks(data[off..], ns, capacity);
    if ok {
      assert data[off..][n..] == data[off + n..];
    }
  }

  lemma EmptyFails(ns: string, capacity: Capacity)
    ensures Parse([], ns, capacity) == []
  {
    EntryItemConsumes(ns, capacity);
    assert TakeInt([], 4).Fail?;
  }

  /** The read position of decodeWALEntry; the closures of the original advance it over a fixed buffer. */
  class Cursor {
    const buf: Bytes
    var pos: nat

    ghost predicate Valid()
      reads this
    {
      pos <= |buf|
    }

    ghost function Left(): Bytes
      reads this
      requires Valid()
    {
      buf[pos..]
    }

    constructor (buf: Bytes)
      ensures Valid() && this.buf == buf && pos == 0 && Left() == buf
    {
      this.buf := buf;
      pos := 0;
    }

    method ReadUint(width: nat) returns (v: nat, ok: bool)
      requires Valid()
      modifies this
      ensures Valid()
      ensures if ok then TakeInt(old(Left()), width) == Done(v, Left())
              else TakeInt(old(Left()), width).Fail? && pos == old(pos)
    {
      if pos + width > |buf| {
        return 0, false;
      }
      v := LE.Get(buf[pos..pos + width]);
      assert buf[pos..][..width] == buf[pos..pos + width] && buf[pos..][width..] == buf[pos + width..];
      pos := pos + width;
      ok := true;
    }

    method ReadBytes(n: nat) returns (b: Bytes, ok: bool)
      requires Valid()
      modifies this
      ensures Valid()
      ensures if ok then TakeBytes(old(Left()), n) == Done(b, Left())
              else TakeBytes(old(Left()), n).Fail? && pos == old(pos)
    {
      if pos + n > |buf| {
        return [], false;
      }
      b := buf[pos..pos + n];
      assert buf[pos..][..n] == buf[pos..pos + n] && buf[pos..][n..] == buf[pos + n..];
      pos := pos + n;
      ok := true;
    }

    method ReadHead() returns (blobId: Bytes, count: nat, ok: bool)
      requires Valid()
      modifies this
      ensures Valid()
      ensures if ok then DecodeHead(old(Left())) == Done((blobId, count), Left()) else DecodeHead(old(Left())).Fail?
    {
      blobId, count := [], 0;
      var magic;
      magic, ok := ReadUint(4);
      if !ok || magic != MAGIC {
        return [], 0, false;
      }
      var blobIdLen;
      blobIdLen, ok := ReadUint(2);
      if !ok {
        return;
      }
      blobId, ok := ReadBytes(blobIdLen);
      if !ok {
        return;
      }
      count, ok := ReadUint(4);
    }

    method ReadChunk(blobId: Bytes, ns: string, capacity: Capacity, i: nat) returns (c: Option<Chunk>)
      requires Valid()
      modifies this
      ensures Valid()
      ensures if c.Some? then DecodeChunk(old(Left()), blobId, ns, capacity, i) == Done(c.value, Left())
              else DecodeChunk(old(Left()), blobId, ns, capacity, i).Fail?
    {
      LE.Pow256Values();
      var cidLen, ok := ReadUint(2);
      if !ok {
        return None;
      }
      var chunkId;
      chunkId, ok := ReadBytes(cidLen);
      if !ok {
        return None;
      }
      var seg, pageOffset, length;
      seg, ok := ReadUint(8);
      if !ok {
        return None;
      }
      pageOffset, ok := ReadUint(8);
      if !ok {
        return None;
      }
      length, ok := ReadUint(8);
      if !ok {
        return None;
      }
      var len64 := LE.ToInt64(length);
      c := Some(Chunk(chunkId, blobId, seg, ns, LE.ToInt64(pageOffset), PageCount(len64, capacity), len64, i));
    }

    method ReadChunks(blobId: Bytes, ns: string, capacity: Capacity, count: nat) returns (chunks: seq<Chunk>, ok: bool)
      requires Valid()
      modifies this
      ensures Valid()
      ensures Many(ChunkItem(blobId, ns, capacity), old(Left()), 0, count) == if ok then Done(chunks, Left()) else Fail
    {
      chunks, ok := [], true;
      ghost var all := Many(ChunkItem(blobId, ns, capacity), Left(), 0, count);
      PrependNone(all);
      var i := 0;
      while i < count
        invariant 0 <= i <= count && Valid() && ok
        invariant all == Prepend(chunks, Many(ChunkItem(blobId, ns, capacity), Left(), i, count))
      {
        ghost var here := Left();
        var c := ReadChunk(blobId, ns, capacity, i);
        ChunkStep(blobId, ns, capacity, here, chunks, c, Left(), i, count);
        if c.None? {
          return [], false;
        }
        chunks := chunks + [c.value];
        i := i + 1;
      }
      NoneLeft(blobId, ns, capacity, Left(), chunks, count);
    }
  }

  lemma NoneLeft(blobId: Bytes, ns: string, capacity: Capacity, b: Bytes, chunks: seq<Chunk>, count: nat)
    ensures Prepend(chunks, Many(ChunkItem(blobId, ns, capacity), b, count, count)) == Done(chunks, b)
  {
    assert chunks + [] == chunks;
  }

  lemma ChunkStep(blobId: Bytes, ns: string, capacity: Capacity, b: Bytes, chunks: seq<Chunk>, c: Option<Chunk>,
                  rest: Bytes, i: nat, count: nat)
    requires i < count
    requires DecodeChunk(b, blobId, ns, capacity, i) == if c.Some? then Done(c.value, rest) else Fail
    ensures Prepend(chunks, Many(ChunkItem(blobId, ns, capacity), b, i, count))
            == if c.Some? then Prepend(chunks + [c.value], Many(ChunkItem(blobId, ns, capacity), rest, i + 1, count))
               else Fail
  {
    if c.Some? {
      PrependPrepend(chunks, c.value, Many(ChunkItem(blobId, ns, capacity), rest, i + 1, count));
    }
  }

  method DecodeWALEntry(buf: Bytes, ns: string, capacity: Capacity) returns (entry: Entry, consumed: nat, ok: bool)
    ensures ok <==> Decode(buf, ns, capacity).Done?
    ensures ok ==> consumed <= |buf| && Decode(buf, ns, capacity) == Done(entry, buf[consumed..])
  {
    entry, consumed := Entry([], []), 0;
    var cursor := new Cursor(buf);
    var blobId, count;
    blobId, count, ok := cursor.ReadHead();
    if !ok {
      return;
    }
    var chunks;
    chunks, ok := cursor.ReadChunks(blobId, ns, capacity, count);
    if ok {
      entry, consumed := Entry(blobId, chunks), cursor.pos;
    }
  }
}
