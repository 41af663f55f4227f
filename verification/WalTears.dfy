/**
 A torn last entry and what is appended behind it. When the store is opened again
 the log is appended to as it is, so later entries stand behind the torn bytes.
 Decoding is the exact inverse of encoding, which says what parsing makes of that.
 */
module WalTears {
  import opened Base
  import opened Parsing
  import opened WalFormat
  import opened Wal
  import LE = LittleEndian

  // ---- what decodes was encoded

  lemma IntForth(head: Bytes, width: nat)
    requires |head| == width
    ensures LE.Put(LE.Get(head), width) == head && LE.Get(head) < LE.Pow256(width)
  {
    LE.PutGet(head);
  }

  lemma Rejoin(b: Bytes, width: nat, put: Bytes)
    requires width <= |b| && put == b[..width]
    ensures b == put + b[width..]
  {
  }

  lemma TakeIntForth(b: Bytes, width: nat)
    requires TakeInt(b, width).Done?
    ensures b == LE.Put(TakeInt(b, width).value, width) + TakeInt(b, width).rest
    ensures TakeInt(b, width).value < LE.Pow256(width)
  {
    IntForth(b[..width], width);
    Rejoin(b, width, LE.Put(LE.Get(b[..width]), width));
  }

  lemma TakeBytesForth(b: Bytes, n: nat)
    requires TakeBytes(b, n).Done?
    ensures b == TakeBytes(b, n).value + TakeBytes(b, n).rest && |TakeBytes(b, n).value| == n
  {
  }

  lemma ChunkForth(b: Bytes, blobId: Bytes, ns: string, capacity: Capacity, i: nat)
    requires DecodeChunk(b, blobId, ns, capacity, i).Done?
    ensures var d := DecodeChunk(b, blobId, ns, capacity, i);
            b == EncodeChunk(d.value) + d.rest && WellPlaced(d.value, blobId, ns, capacity, i)
  {
    LE.Pow256Values();
    TakeIntForth(b, 2);
    var len := TakeInt(b, 2);
    TakeBytesForth(len.rest, len.value);
    var id := TakeBytes(len.rest, len.value);
    TakeIntForth(id.rest, 8);
    var seg := TakeInt(id.rest, 8);
    TakeIntForth(seg.rest, 8);
    var offset := TakeInt(seg.rest, 8);
    TakeIntForth(offset.rest, 8);
    var length := TakeInt(offset.rest, 8);
    assert LE.ToUint64(LE.ToInt64(offset.value)) == offset.value && LE.ToUint64(LE.ToInt64(length.value)) == length.value;
    Assoc5(LE.Put(len.value, 2), id.value, LE.Put(seg.value, 8), LE.Put(offset.value, 8), LE.Put(length.value, 8), length.rest);
  }

  lemma HeadForth(b: Bytes)
    requires DecodeHead(b).Done?
    ensures var d := DecodeHead(b);
            && b == EncodeHead(d.value.0, d.value.1) + d.rest
            && |d.value.0| < 0x1_0000 && d.value.1 < 0x1_0000_0000
  {
    LE.Pow256Values();
    TakeIntForth(b, 4);
    var magic := TakeInt(b, 4);
    TakeIntForth(magic.rest, 2);
    var len := TakeInt(magic.rest, 2);
    TakeBytesForth(len.rest, len.value);
    var id := TakeBytes(len.rest, len.value);
    TakeIntForth(id.rest, 4);
    var count := TakeInt(id.rest, 4);
    Assoc4(LE.Put(MAGIC, 4), LE.Put(len.value, 2), id.value, LE.Put(count.value, 4), count.rest);
  }

  predicate PlacedFrom(chunks: seq<Chunk>, blobId: Bytes, ns: string, capacity: Capacity, i: nat) {
    forall j :: 0 <= j < |chunks| ==> WellPlaced(chunks[j], blobId, ns, capacity, i + j)
  }

  lemma {:induction false} ChunksForth(b: Bytes, blobId: Bytes, ns: string, capacity: Capacity, i: nat, count: nat)
    requires i <= count && Many(ChunkItem(blobId, ns, capacity), b, i, count).Done?
    ensures var d := Many(ChunkItem(blobId, ns, capacity), b, i, count);
            && b == EncodeMany(EncodeChunk, d.value) + d.rest
            && |d.value| == count - i && PlacedFrom(d.value, blobId, ns, capacity, i)
    decreases count - i
  {
    var item := ChunkItem(blobId, ns, capacity);
    var d := Many(item, b, i, count);
    if i < count {
      var one := item(b, i);
      ChunkForth(b, blobId, ns, capacity, i);
      ChunksForth(one.rest, blobId, ns, capacity, i + 1, count);
      var later := Many(item, one.rest, i + 1, count);
      assert d.value == [one.value] + later.value && d.value[1..] == later.value;
      ConcatAssoc(EncodeChunk(one.value), EncodeMany(EncodeChunk, later.value), later.rest);
      forall j | 0 <= j < |d.value|
        ensures WellPlaced(d.value[j], blobId, ns, capacity, i + j)
      {
        if j > 0 {
          assert WellPlaced(later.value[j - 1], blobId, ns, capacity, i + 1 + (j - 1));
        }
      }
    } else {
      assert EncodeMany(EncodeChunk, d.value) == [] && [] + b == b;
    }
  }

  /** What decodes is the encoding of the entry it yields, and of no other; the rest is what stands behind it. */
  lemma EntryForth(b: Bytes, ns: string, capacity: Capacity)
    requires Decode(b, ns, capacity).Done?
    ensures var d := Decode(b, ns, capacity); b == Encode(d.value) + d.rest && WellBuilt(d.value, ns, capacity)
  {
    HeadForth(b);
    var head := DecodeHead(b);
    ChunksForth(head.rest, head.value.0, ns, capacity, 0, head.value.1);
    var chunks := Many(ChunkItem(head.value.0, ns, capacity), head.rest, 0, head.value.1);
    ConcatAssoc(EncodeHead(head.value.0, head.value.1), EncodeMany(EncodeChunk, chunks.value), chunks.rest);
    forall j | 0 <= j < |chunks.value|
      ensures WellPlaced(chunks.value[j], head.value.0, ns, capacity, j)
    {
      assert WellPlaced(chunks.value[j], head.value.0, ns, capacity, 0 + j);
    }
  }

  /** Bytes decode exactly if they begin with the encoding of some entry. */
  ghost predicate BeginsWithEntry(b: Bytes, ns: string, capacity: Capacity) {
    exists e :: WellBuilt(e, ns, capacity) && Encode(e) <= b
  }

  lemma PrefixRest(a: Bytes, b: Bytes)
    requires a <= b
    ensures b == a + b[|a|..]
  {
  }

  lemma PrefixOf(a: Bytes, rest: Bytes)
    ensures a <= a + rest
  {
  }

  lemma EncodedDecodes(e: Entry, b: Bytes, ns: string, capacity: Capacity)
    requires WellBuilt(e, ns, capacity) && Encode(e) <= b
    ensures Decode(b, ns, capacity).Done?
  {
    PrefixRest(Encode(e), b);
    EntryBack(e, ns, capacity, b[|Encode(e)|..]);
  }

  lemma DecodesIff(b: Bytes, ns: string, capacity: Capacity)
    ensures Decode(b, ns, capacity).Done? <==> BeginsWithEntry(b, ns, capacity)
  {
    if Decode(b, ns, capacity).Done? {
      EntryForth(b, ns, capacity);
      var d := Decode(b, ns, capacity);
      PrefixOf(Encode(d.value), d.rest);
    } else if BeginsWithEntry(b, ns, capacity) {
      var e :| WellBuilt(e, ns, capacity) && Encode(e) <= b;
      EncodedDecodes(e, b, ns, capacity);
    }
  }

  // ---- what parsing returns, for any bytes

  lemma ParseNothing(data: Bytes, ns: string, capacity: Capacity)
    ensures Parse(data, ns, capacity) == [] <==> !BeginsWithEntry(data, ns, capacity)
  {
    EntryItemConsumes(ns, capacity);
    DecodesIff(data, ns, capacity);
  }

  /** The entries that come back are encoded there one behind the other, and no entry begins after them. */
  lemma {:induction false} ParseCovers(data: Bytes, ns: string, capacity: Capacity) returns (rest: Bytes)
    ensures data == EncodeMany(Encode, Parse(data, ns, capacity)) + rest
    ensures AllBuilt(Parse(data, ns, capacity), ns, capacity) && !BeginsWithEntry(rest, ns, capacity)
    decreases |data|
  {
    EntryItemConsumes(ns, capacity);
    DecodesIff(data, ns, capacity);
    var d := Decode(data, ns, capacity);
    if d.Done? {
      EntryForth(data, ns, capacity);
      DecodeShrinks(data, ns, capacity);
      rest := ParseCovers(d.rest, ns, capacity);
      var later := Parse(d.rest, ns, capacity);
      var all := Parse(data, ns, capacity);
      assert all == [d.value] + later && all[1..] == later;
      ConcatAssoc(Encode(d.value), EncodeMany(Encode, later), rest);
    } else {
      rest := data;
      assert EncodeMany(Encode, Parse(data, ns, capacity)) == [] && [] + data == data;
    }
  }

  /**
   So parsing any bytes is finding the one list of entries that are encoded at the
   front one behind the other with no entry beginning after them.
   */
  lemma ParseIff(data: Bytes, log: seq<Entry>, rest: Bytes, ns: string, capacity: Capacity)
    requires AllBuilt(log, ns, capacity) && data == EncodeMany(Encode, log) + rest
    ensures Parse(data, ns, capacity) == log <==> !BeginsWithEntry(rest, ns, capacity)
  {
    ParseAppend(log, rest, ns, capacity);
    ParseNothing(rest, ns, capacity);
    assert log + [] == log;
    assert log + Parse(rest, ns, capacity) == log ==> |Parse(rest, ns, capacity)| == 0;
  }

  // ---- a torn entry with more behind it

  /** What the log is after a torn append and further complete ones. */
  function TornLog(log: seq<Entry>, torn: Bytes, later: seq<Entry>): Bytes {
    EncodeMany(Encode, log) + (torn + EncodeMany(Encode, later))
  }

  /** With the entries before the tear taken off: what comes of the rest. */
  lemma TailIff(tail: Bytes, later: seq<Entry>, ns: string, capacity: Capacity)
    requires AllBuilt(later, ns, capacity)
    ensures var x := EncodeMany(Encode, later);
            Parse(tail, ns, capacity) == later <==> x <= tail && !BeginsWithEntry(tail[|x|..], ns, capacity)
  {
    var x := EncodeMany(Encode, later);
    if x <= tail {
      assert tail == x + tail[|x|..];
      ParseIff(tail, later, tail[|x|..], ns, capacity);
    }
    var rest := ParseCovers(tail, ns, capacity);
    if Parse(tail, ns, capacity) == later {
      assert tail == x + rest;
    }
  }

  /**
   The entries before the tear always come back. All entries behind it are lost
   exactly if the torn bytes, with what follows them, begin with no entry. They all
   come back, and nothing else does, exactly if they also stand right at the tear:
   if nothing was torn, or the bytes repeat.
   */
  lemma LaterEntriesLostIff(log: seq<Entry>, next: Entry, torn: Bytes, later: seq<Entry>, ns: string, capacity: Capacity)
    requires AllBuilt(log, ns, capacity) && AllBuilt(later, ns, capacity)
    requires WellBuilt(next, ns, capacity) && torn < Encode(next)
    ensures var x := EncodeMany(Encode, later);
            var parsed := Parse(TornLog(log, torn, later), ns, capacity);
            && log <= parsed
            && (parsed == log <==> !BeginsWithEntry(torn + x, ns, capacity))
            && (parsed == log + later <==> x <= torn + x && !BeginsWithEntry((torn + x)[|x|..], ns, capacity))
  {
    var tail := torn + EncodeMany(Encode, later);
    ParseAppend(log, tail, ns, capacity);
    ParseNothing(tail, ns, capacity);
    TailIff(tail, later, ns, capacity);
    SamePrefix(log, Parse(tail, ns, capacity), later);
    SamePrefix(log, Parse(tail, ns, capacity), []);
    assert log + [] == log;
  }

  lemma SamePrefix<T>(a: seq<T>, b: seq<T>, c: seq<T>)
    ensures a <= a + b && (a + b == a + c <==> b == c)
  {
    assert (a + b)[|a|..] == b && (a + c)[|a|..] == c;
  }

  /** Nothing torn, nothing lost. */
  lemma CleanEndLosesNothing(log: seq<Entry>, later: seq<Entry>, ns: string, capacity: Capacity)
    requires AllBuilt(log, ns, capacity) && AllBuilt(later, ns, capacity)
    ensures Parse(TornLog(log, [], later), ns, capacity) == log + later
  {
    var x := EncodeMany(Encode, later);
    NothingAround(x);
    ParseAppend(log, x, ns, capacity);
    ParseAppend(later, [], ns, capacity);
    ParseEmpty(ns, capacity);
    assert later + [] == later;
  }

  lemma NothingAround(x: Bytes)
    ensures [] + x == x && x + [] == x
  {
  }

  lemma ParseEmpty(ns: string, capacity: Capacity)
    ensures Parse([], ns, capacity) == []
  {
    EntryItemConsumes(ns, capacity);
  }

  // ---- a tear in the magic number

  lemma MagicBytes()
    ensures LE.Put(MAGIC, 4) == [0xCE, 0xFA, 0xA1, 0x0B]
  {
    assert LE.Put(0x0B, 1) == [0x0B];
    assert LE.Put(0x0BA1, 2) == [0xA1, 0x0B];
    assert LE.Put(0x0BA1FA, 3) == [0xFA, 0xA1, 0x0B];
  }

  /** An entry begins with the magic number. */
  lemma BeginsWithMagic(b: Bytes, ns: string, capacity: Capacity)
    requires BeginsWithEntry(b, ns, capacity)
    ensures LE.Put(MAGIC, 4) <= b
  {
    DecodesIff(b, ns, capacity);
    TakeIntForth(b, 4);
  }

  lemma EncodedBegins(e: Entry)
    ensures LE.Put(MAGIC, 4) <= Encode(e)
  {
    var rest := LE.Put(|e.blobId|, 2) + (e.blobId + LE.Put(|e.chunks|, 4));
    ConcatAssoc(LE.Put(MAGIC, 4), rest, EncodeMany(EncodeChunk, e.chunks));
  }

  /** If only part of the magic number was written, every later entry is lost. */
  lemma TornMagicLosesAll(log: seq<Entry>, next: Entry, torn: Bytes, later: seq<Entry>, ns: string, capacity: Capacity)
    requires AllBuilt(log, ns, capacity) && AllBuilt(later, ns, capacity) && later != []
    requires WellBuilt(next, ns, capacity) && torn < Encode(next) && 0 < |torn| < 4
    ensures Parse(TornLog(log, torn, later), ns, capacity) == log
  {
    var tail := torn + EncodeMany(Encode, later);
    MagicBytes();
    EncodedBegins(next);
    EncodedBegins(later[0]);
    var magic := LE.Put(MAGIC, 4);
    assert torn == magic[..|torn|] && magic <= EncodeMany(Encode, later);
    assert tail[|torn|] == 0xCE;
    assert !(magic <= tail) by {
      assert magic[|torn|] != 0xCE;
    }
    if BeginsWithEntry(tail, ns, capacity) {
      BeginsWithMagic(tail, ns, capacity);
    }
    LaterEntriesLostIff(log, next, torn, later, ns, capacity);
  }

  // ---- a tear in the last 24 bytes

  /** Where the last chunk lies and how long it is, as the last 24 bytes of its entry. */
  function Place(c: Chunk): (f: Bytes)
    ensures |f| == 24
  {
    LE.Put(c.seg, 8) + (LE.Put(LE.ToUint64(c.pageOffset), 8) + LE.Put(LE.ToUint64(c.length), 8))
  }

  /** The chunk with its place read from other bytes. */
  function Replaced(c: Chunk, f: Bytes, capacity: Capacity): Chunk
    requires |f| == 24
  {
    LE.Pow256Values();
    var length: Int64 := LE.ToInt64(LE.Get(f[16..24]));
    c.(seg := LE.Get(f[..8]), pageOffset := LE.ToInt64(LE.Get(f[8..16])), length := length,
       pageCount := PageCount(length, capacity))
  }

  /** A 64-bit field is what it was read as. */
  lemma FieldBack(h: Bytes, width: nat)
    requires |h| == width && LE.Pow256(width) == LE.TWO_64
    ensures LE.Get(h) < LE.TWO_64
    ensures LE.Put(LE.Get(h), width) == h && LE.Put(LE.ToUint64(LE.ToInt64(LE.Get(h))), width) == h
  {
    IntForth(h, width);
    SignedBack(LE.Get(h));
  }

  lemma SignedBack(n: nat)
    requires n < LE.TWO_64
    ensures LE.ToUint64(LE.ToInt64(n)) == n
  {
  }

  lemma ThreeFields(f: Bytes)
    requires |f| == 24
    ensures f == f[..8] + (f[8..16] + f[16..24])
  {
  }

  lemma ReplacedPlace(c: Chunk, f: Bytes, capacity: Capacity)
    requires |f| == 24
    ensures Place(Replaced(c, f, capacity)) == f
  {
    LE.Pow256Values();
    FieldBack(f[..8], 8);
    FieldBack(f[8..16], 8);
    FieldBack(f[16..24], 8);
    ThreeFields(f);
  }

  /** The entry with the place of its last chunk read from other bytes. */
  function Misread(e: Entry, f: Bytes, capacity: Capacity): (m: Entry)
    requires e.chunks != [] && |f| == 24
    ensures m.blobId == e.blobId && |m.chunks| == |e.chunks|
  {
    var n := |e.chunks| - 1;
    Entry(e.blobId, e.chunks[..n] + [Replaced(e.chunks[n], f, capacity)])
  }

  lemma {:induction false} EncodeManySnoc<T>(encode: T -> Bytes, xs: seq<T>, x: T)
    ensures EncodeMany(encode, xs + [x]) == EncodeMany(encode, xs) + encode(x)
    decreases |xs|
  {
    if xs == [] {
      assert xs + [x] == [x] && [x][1..] == [];
      assert encode(x) + [] == encode(x) && [] + encode(x) == encode(x);
    } else {
      EncodeManySnoc(encode, xs[1..], x);
      assert (xs + [x])[1..] == xs[1..] + [x];
      ConcatAssoc(encode(xs[0]), EncodeMany(encode, xs[1..]), encode(x));
    }
  }

  /** All of an entry but the place of its last chunk. */
  function Stem(e: Entry): Bytes
    requires e.chunks != []
  {
    var n := |e.chunks| - 1;
    EncodeHead(e.blobId, |e.chunks|)
      + (EncodeMany(EncodeChunk, e.chunks[..n]) + (LE.Put(|e.chunks[n].chunkId|, 2) + e.chunks[n].chunkId))
  }

  lemma Assoc3(a: Bytes, b: Bytes, c: Bytes, d: Bytes, f: Bytes)
    ensures a + (b + (c + (d + f))) == (a + (b + (c + d))) + f
  {
  }

  lemma StemAndPlace(e: Entry)
    requires e.chunks != []
    ensures Encode(e) == Stem(e) + Place(e.chunks[|e.chunks| - 1])
  {
    var n := |e.chunks| - 1;
    var c := e.chunks[n];
    assert e.chunks == e.chunks[..n] + [c];
    EncodeManySnoc(EncodeChunk, e.chunks[..n], c);
    Assoc3(EncodeHead(e.blobId, |e.chunks|), EncodeMany(EncodeChunk, e.chunks[..n]), LE.Put(|c.chunkId|, 2), c.chunkId, Place(c));
  }

  lemma MisreadIs(e: Entry, f: Bytes, ns: string, capacity: Capacity)
    requires WellBuilt(e, ns, capacity) && e.chunks != [] && |f| == 24
    ensures WellBuilt(Misread(e, f, capacity), ns, capacity)
    ensures Encode(Misread(e, f, capacity)) == Stem(e) + f
  {
    var m := Misread(e, f, capacity);
    var n := |e.chunks| - 1;
    assert m.chunks[..n] == e.chunks[..n] && m.chunks[n] == Replaced(e.chunks[n], f, capacity);
    assert WellPlaced(e.chunks[n], e.blobId, ns, capacity, n);
    forall i | 0 <= i < |m.chunks|
      ensures WellPlaced(m.chunks[i], m.blobId, ns, capacity, i)
    {
      if i < n {
        assert WellPlaced(e.chunks[i], e.blobId, ns, capacity, i) && m.chunks[i] == e.chunks[i];
      }
    }
    StemAndPlace(m);
    ReplacedPlace(e.chunks[n], f, capacity);
  }

  /** Torn in the last 24 bytes, with at least as many bytes behind as are missing: the entry is read with a false place. */
  lemma EnoughIsMisread(next: Entry, missing: nat, tail: Bytes, ns: string, capacity: Capacity)
    requires WellBuilt(next, ns, capacity) && next.chunks != [] && 1 <= missing <= 24 && missing <= |tail|
    ensures var place := Place(next.chunks[|next.chunks| - 1]);
            var torn := Stem(next) + place[..24 - missing];
            Decode(torn + tail, ns, capacity)
            == Done(Misread(next, place[..24 - missing] + tail[..missing], capacity), tail[missing..])
  {
    var place := Place(next.chunks[|next.chunks| - 1]);
    var f := place[..24 - missing] + tail[..missing];
    MisreadIs(next, f, ns, capacity);
    EntryBack(Misread(next, f, capacity), ns, capacity, tail[missing..]);
    Resplit(Stem(next), place[..24 - missing], tail, missing);
  }

  lemma Resplit(a: Bytes, b: Bytes, tail: Bytes, n: nat)
    requires n <= |tail|
    ensures (a + b) + tail == (a + (b + tail[..n])) + tail[n..]
  {
    assert tail == tail[..n] + tail[n..];
  }

  /** With fewer bytes behind it does not decode. */
  lemma TooFewFail(next: Entry, missing: nat, tail: Bytes, ns: string, capacity: Capacity)
    requires WellBuilt(next, ns, capacity) && next.chunks != [] && 1 <= missing <= 24 && |tail| < missing
    ensures var torn := Stem(next) + Place(next.chunks[|next.chunks| - 1])[..24 - missing];
            Decode(torn + tail, ns, capacity).Fail?
  {
    var place := Place(next.chunks[|next.chunks| - 1]);
    var torn := Stem(next) + place[..24 - missing];
    var pad := seq(missing - |tail|, _ => 0 as Byte);
    var f := place[..24 - missing] + (tail + pad);
    MisreadIs(next, f, ns, capacity);
    assert (torn + tail) + pad == Stem(next) + f;
    assert torn + tail < Stem(next) + f;
    TornEntryFails(Misread(next, f, capacity), ns, capacity, torn + tail);
  }

  /**
   An entry torn in the last 24 bytes comes back with a false place for its last
   chunk exactly if at least the missing bytes have been appended since: they are
   taken from the next entry, and parsing goes on in the middle of that one.
   */
  lemma TornPlaceIsMisreadIff(log: seq<Entry>, next: Entry, missing: nat, later: seq<Entry>, ns: string, capacity: Capacity)
    requires AllBuilt(log, ns, capacity) && WellBuilt(next, ns, capacity) && next.chunks != [] && 1 <= missing <= 24
    ensures var torn := Encode(next)[..|Encode(next)| - missing];
            var x := EncodeMany(Encode, later);
            var place := Place(next.chunks[|next.chunks| - 1]);
            Parse(TornLog(log, torn, later), ns, capacity)
            == if |x| < missing then log
               else log + ([Misread(next, place[..24 - missing] + x[..missing], capacity)]
                           + Parse(x[missing..], ns, capacity))
  {
    var torn := Encode(next)[..|Encode(next)| - missing];
    var x := EncodeMany(Encode, later);
    var place := Place(next.chunks[|next.chunks| - 1]);
    StemAndPlace(next);
    assert torn == Stem(next) + place[..24 - missing];
    ParseAppend(log, torn + x, ns, capacity);
    EntryItemConsumes(ns, capacity);
    if |x| < missing {
      TooFewFail(next, missing, x, ns, capacity);
      assert log + [] == log;
    } else {
      EnoughIsMisread(next, missing, x, ns, capacity);
    }
  }
}
