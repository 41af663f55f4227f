/**
 The write-ahead log: entries are self-delimiting, a torn last entry is never
 mistaken for a complete one, and parsing gives back what was appended.
 */
module WalFormat {
  import opened Base
  import opened Parsing
  import LE = LittleEndian

  const MAGIC := 0xBA1FACE

  type Uint64 = x: int | 0 <= x < LE.TWO_64
  type Int64 = x: int | -LE.TWO_63 <= x < LE.TWO_63

  /** Payload bytes of a page; ParseWAL never lets it fall below 1. */
  type Capacity = x: int | 1 <= x < LE.TWO_63 witness 1

  /** A chunk entry as WriteBlob builds it and ParseWAL rebuilds it; ids are their text bytes. */
  datatype Chunk = Chunk(
    chunkId: Bytes, blobId: Bytes, seg: Uint64, ns: string, pageOffset: Int64, pageCount: int, length: Int64, seqNo: nat)

  datatype Entry = Entry(blobId: Bytes, chunks: seq<Chunk>)

  function PageCapacity(pageSize: int): Capacity
    requires pageSize < LE.TWO_63
  {
    if pageSize - 88 <= 0 then 1 else pageSize - 88
  }

  /** The ceiling division of the decoder, in 64-bit arithmetic; Go truncates, so anything below one page gives 1. */
  function PageCount(length: Int64, capacity: Capacity): int {
    var n := LE.Wrap64(length + capacity - 1);
    if n < capacity then 1 else n / capacity
  }

  // ---- encoding

  function EncodeChunk(c: Chunk): Bytes {
    LE.Put(|c.chunkId|, 2) + (c.chunkId
      + (LE.Put(c.seg, 8) + (LE.Put(LE.ToUint64(c.pageOffset), 8) + LE.Put(LE.ToUint64(c.length), 8))))
  }

  function EncodeHead(blobId: Bytes, count: nat): Bytes {
    LE.Put(MAGIC, 4) + (LE.Put(|blobId|, 2) + (blobId + LE.Put(count, 4)))
  }

  function Encode(e: Entry): Bytes {
    EncodeHead(e.blobId, |e.chunks|) + EncodeMany(EncodeChunk, e.chunks)
  }

  /** An entry as WriteBlob builds it: ids short, chunks numbered, page counts from the lengths. */
  predicate WellBuilt(e: Entry, ns: string, capacity: Capacity) {
    && |e.blobId| < 0x1_0000 && |e.chunks| < 0x1_0000_0000
    && (forall i :: 0 <= i < |e.chunks| ==> WellPlaced(e.chunks[i], e.blobId, ns, capacity, i))
  }

  predicate WellPlaced(c: Chunk, blobId: Bytes, ns: string, capacity: Capacity, i: nat) {
    |c.chunkId| < 0x1_0000 && c.blobId == blobId && c.ns == ns && c.seqNo == i && c.pageCount == PageCount(c.length, capacity)
  }

  // ---- decoding

  function DecodeChunk(b: Bytes, blobId: Bytes, ns: string, capacity: Capacity, i: nat): Parsed<Chunk> {
    LE.Pow256Values();
    match TakeInt(b, 2)
    case Fail => Fail
    case Done(len, b1) =>
      match TakeBytes(b1, len)
      case Fail => Fail
      case Done(chunkId, b2) =>
        match TakeInt(b2, 8)
        case Fail => Fail
        case Done(seg, b3) =>
          match TakeInt(b3, 8)
          case Fail => Fail
          case Done(offset, b4) =>
            match TakeInt(b4, 8)
            case Fail => Fail
            case Done(length, b5) =>
              var len64: Int64 := LE.ToInt64(length);
              Done(Chunk(chunkId, blobId, seg, ns, LE.ToInt64(offset), PageCount(len64, capacity), len64, i), b5)
  }

  function ChunkItem(blobId: Bytes, ns: string, capacity: Capacity): (Bytes, nat) -> Parsed<Chunk> {
    (b: Bytes, i: nat) => DecodeChunk(b, blobId, ns, capacity, i)
  }

  function DecodeHead(b: Bytes): Parsed<(Bytes, nat)> {
    match TakeInt(b, 4)
    case Fail => Fail
    case Done(magic, b1) =>
      if magic != MAGIC then Fail else
      match TakeInt(b1, 2)
      case Fail => Fail
      case Done(len, b2) =>
        match TakeBytes(b2, len)
        case Fail => Fail
        case Done(blobId, b3) =>
          match TakeInt(b3, 4)
          case Fail => Fail
          case Done(count, b4) => Done((blobId, count), b4)
  }

  function Decode(b: Bytes, ns: string, capacity: Capacity): Parsed<Entry> {
    match DecodeHead(b)
    case Fail => Fail
    case Done(head, b1) =>
      match Many(ChunkItem(head.0, ns, capacity), b1, 0, head.1)
      case Fail => Fail
      case Done(chunks, b2) => Done(Entry(head.0, chunks), b2)
  }

  function EntryItem(ns: string, capacity: Capacity): Bytes -> Parsed<Entry> {
    b => Decode(b, ns, capacity)
  }

  lemma DecodeShrinks(b: Bytes, ns: string, capacity: Capacity)
    ensures var d := Decode(b, ns, capacity); d.Done? ==> |d.rest| < |b|
  {
    var head := DecodeHead(b);
    if head.Done? {
      ManyShrinks(ChunkItem(head.value.0, ns, capacity), head.rest, 0, head.value.1);
    }
  }

  lemma EntryItemConsumes(ns: string, capacity: Capacity)
    ensures Consumes(EntryItem(ns, capacity))
  {
    forall b: Bytes | EntryItem(ns, capacity)(b).Done?
      ensures |EntryItem(ns, capacity)(b).rest| < |b|
    {
      DecodeShrinks(b, ns, capacity);
    }
  }

  /** What a log file holds: entries up to the first that does not decode. */
  function Parse(data: Bytes, ns: string, capacity: Capacity): seq<Entry> {
    EntryItemConsumes(ns, capacity);
    Repeat(EntryItem(ns, capacity), data)
  }
}

module Wal {
  import opened Base
  import opened Parsing
  import opened WalFormat
  import LE = LittleEndian
  import Disk

  // ---- page counts

  lemma MulMono(a: int, b: int, d: nat)
    ensures a <= b ==> a * d <= b * d
  {
  }

  lemma QuotientIs(n: nat, d: nat, q: nat, r: nat)
    requires d > r && n == q * d + r
    ensures n / d == q
  {
    MulMono(n / d + 1, q, d);
    MulMono(q + 1, n / d, d);
  }

  lemma DivStep(n: nat, d: nat)
    requires 1 <= d <= n
    ensures n / d == (n - d) / d + 1
  {
    var q := (n - d) / d;
    assert n - d == q * d + (n - d) % d;
    QuotientIs(n, d, q + 1, (n - d) % d);
  }

  /** The recomputed page count is the number of pages appendChunk wrote. */
  lemma {:induction false} PageCountIsPagesWritten(data: Bytes, capacity: Capacity)
    requires |data| + capacity - 1 < LE.TWO_63
    ensures PageCount(|data|, capacity) == |Disk.Slices(data, capacity)|
    decreases |data|
  {
    if |data| > capacity {
      PageCountIsPagesWritten(data[capacity..], capacity);
      DivStep(|data| + capacity - 1, capacity);
      if |data| < 2 * capacity {
        QuotientIs(|data| - 1, capacity, 1, |data| - 1 - capacity);
      }
    } else if |data| > 0 {
      QuotientIs(|data| + capacity - 1, capacity, 1, |data| - 1);
    }
  }

  // ---- what is encoded decodes, whatever follows

  lemma ChunkBack(c: Chunk, blobId: Bytes, ns: string, capacity: Capacity, i: nat, rest: Bytes)
    requires WellPlaced(c, blobId, ns, capacity, i)
    ensures DecodeChunk(EncodeChunk(c) + rest, blobId, ns, capacity, i) == Done(c, rest)
  {
    LE.Pow256Values();
    var e5 := LE.Put(LE.ToUint64(c.length), 8) + rest;
    var e4 := LE.Put(LE.ToUint64(c.pageOffset), 8) + e5;
    var e3 := LE.Put(c.seg, 8) + e4;
    var e2 := c.chunkId + e3;
    Assoc5(LE.Put(|c.chunkId|, 2), c.chunkId, LE.Put(c.seg, 8), LE.Put(LE.ToUint64(c.pageOffset), 8),
           LE.Put(LE.ToUint64(c.length), 8), rest);
    TakeIntBack(|c.chunkId|, 2, e2);
    TakeBytesBack(c.chunkId, e3);
    TakeIntBack(c.seg, 8, e4);
    TakeIntBack(LE.ToUint64(c.pageOffset), 8, e5);
    TakeIntBack(LE.ToUint64(c.length), 8, rest);
  }

  lemma HeadBack(blobId: Bytes, count: nat, rest: Bytes)
    requires |blobId| < 0x1_0000 && count < 0x1_0000_0000
    ensures DecodeHead(EncodeHead(blobId, count) + rest) == Done((blobId, count), rest)
  {
    LE.Pow256Values();
    var e4 := LE.Put(count, 4) + rest;
    var e3 := blobId + e4;
    var e2 := LE.Put(|blobId|, 2) + e3;
    Assoc4(LE.Put(MAGIC, 4), LE.Put(|blobId|, 2), blobId, LE.Put(count, 4), rest);
    TakeIntBack(MAGIC, 4, e2);
    TakeIntBack(|blobId|, 2, e3);
    TakeBytesBack(blobId, e4);
    TakeIntBack(count, 4, rest);
  }

  lemma ChunksBack(e: Entry, ns: string, capacity: Capacity, rest: Bytes)
    requires WellBuilt(e, ns, capacity)
    ensures Many(ChunkItem(e.blobId, ns, capacity), EncodeMany(EncodeChunk, e.chunks) + rest, 0, |e.chunks|)
            == Done(e.chunks, rest)
  {
    var item := ChunkItem(e.blobId, ns, capacity);
    forall j: nat, more: Bytes | j < |e.chunks|
      ensures item(EncodeChunk(e.chunks[j]) + more, 0 + j) == Done(e.chunks[j], more)
    {
      assert WellPlaced(e.chunks[j], e.blobId, ns, capacity, j);
      ChunkBack(e.chunks[j], e.blobId, ns, capacity, j, more);
    }
    ManyBack(item, EncodeChunk, e.chunks, 0, rest);
  }

  /** Encoding is self-delimiting: the entry comes back and exactly the rest is left. */
  lemma EntryBack(e: Entry, ns: string, capacity: Capacity, rest: Bytes)
    requires WellBuilt(e, ns, capacity)
    ensures Decode(Encode(e) + rest, ns, capacity) == Done(e, rest)
  {
    var chunks := EncodeMany(EncodeChunk, e.chunks);
    ConcatAssoc(EncodeHead(e.blobId, |e.chunks|), chunks, rest);
    HeadBack(e.blobId, |e.chunks|, chunks + rest);
    ChunksBack(e, ns, capacity, rest);
  }

  // ---- a success does not depend on what follows

  lemma ChunkExtends(b: Bytes, blobId: Bytes, ns: string, capacity: Capacity, i: nat, more: Bytes)
    requires DecodeChunk(b, blobId, ns, capacity, i).Done?
    ensures var d := DecodeChunk(b, blobId, ns, capacity, i);
            DecodeChunk(b + more, blobId, ns, capacity, i) == Done(d.value, d.rest + more)
  {
    TakeIntExtends(b, 2, more);
    var len := TakeInt(b, 2);
    TakeBytesExtends(len.rest, len.value, more);
    var id := TakeBytes(len.rest, len.value);
    TakeIntExtends(id.rest, 8, more);
    var seg := TakeInt(id.rest, 8);
    TakeIntExtends(seg.rest, 8, more);
    var offset := TakeInt(seg.rest, 8);
    TakeIntExtends(offset.rest, 8, more);
  }

  lemma HeadExtends(b: Bytes, more: Bytes)
    requires DecodeHead(b).Done?
    ensures DecodeHead(b + more) == Done(DecodeHead(b).value, DecodeHead(b).rest + more)
  {
    TakeIntExtends(b, 4, more);
    var magic := TakeInt(b, 4);
    TakeIntExtends(magic.rest, 2, more);
    var len := TakeInt(magic.rest, 2);
    TakeBytesExtends(len.rest, len.value, more);
    var id := TakeBytes(len.rest, len.value);
    TakeIntExtends(id.rest, 4, more);
  }

  lemma ChunkItemExtends(blobId: Bytes, ns: string, capacity: Capacity)
    ensures Extends(ChunkItem(blobId, ns, capacity))
  {
    var item := ChunkItem(blobId, ns, capacity);
    forall b: Bytes, i: nat, more: Bytes | item(b, i).Done?
      ensures item(b + more, i) == Done(item(b, i).value, item(b, i).rest + more)
    {
      ChunkExtends(b, blobId, ns, capacity, i, more);
    }
  }

  lemma DecodeExtends(b: Bytes, ns: string, capacity: Capacity, more: Bytes)
    requires Decode(b, ns, capacity).Done?
    ensures var d := Decode(b, ns, capacity); Decode(b + more, ns, capacity) == Done(d.value, d.rest + more)
  {
    HeadExtends(b, more);
    var head := DecodeHead(b);
    ChunkItemExtends(head.value.0, ns, capacity);
    ManyExtends(ChunkItem(head.value.0, ns, capacity), head.rest, 0, head.value.1, more);
  }

  /** No proper prefix of an encoded entry decodes. */
  lemma TornEntryFails(e: Entry, ns: string, capacity: Capacity, torn: Bytes)
    requires WellBuilt(e, ns, capacity) && torn < Encode(e)
    ensures Decode(torn, ns, capacity).Fail?
  {
    var more := Encode(e)[|torn|..];
    assert torn + more == Encode(e) == Encode(e) + [];
    EntryBack(e, ns, capacity, []);
    if Decode(torn, ns, capacity).Done? {
      DecodeExtends(torn, ns, capacity, more);
      assert false;
    }
  }

  ghost predicate AllBuilt(log: seq<Entry>, ns: string, capacity: Capacity) {
    forall e :: e in log ==> WellBuilt(e, ns, capacity)
  }

  /** Complete entries at the front come back whatever follows them. */
  lemma ParseAppend(log: seq<Entry>, data: Bytes, ns: string, capacity: Capacity)
    requires AllBuilt(log, ns, capacity)
    ensures Parse(EncodeMany(Encode, log) + data, ns, capacity) == log + Parse(data, ns, capacity)
  {
    EntryItemConsumes(ns, capacity);
    var item := EntryItem(ns, capacity);
    forall j: nat, more: Bytes | j < |log|
      ensures item(Encode(log[j]) + more) == Done(log[j], more)
    {
      EntryBack(log[j], ns, capacity, more);
    }
    RepeatBack(item, Encode, log, data);
  }

  /**
   For any list of entries as WriteBlob builds them, followed by nothing or by any
   proper prefix of one more, parsing returns exactly the complete entries in order.
   */
  lemma ParseReturnsComplete(log: seq<Entry>, next: Entry, torn: Bytes, ns: string, capacity: Capacity)
    requires WellBuilt(next, ns, capacity) && torn < Encode(next) && AllBuilt(log, ns, capacity)
    ensures Parse(EncodeMany(Encode, log) + torn, ns, capacity) == log
  {
    EntryItemConsumes(ns, capacity);
    TornEntryFails(next, ns, capacity, torn);
    ParseAppend(log, torn, ns, capacity);
    assert log + [] == log;
  }
}
