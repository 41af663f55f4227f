/** Which chunks an aligned upload accepts, and which blocks an accepted chunk fills. */
module UploadSpec {
  import opened Base
  import opened BlockMarks
  import opened BlockSizes

  /** A whole number of blocks inside the file, or a last chunk that ends exactly at its end. */
  predicate ValidBlockChunk(offset: nat, len: nat, bs: nat, size: nat)
    requires bs >= 1
  {
    if len % bs == 0 then offset + len <= size else offset % bs == 0 && offset + len == size
  }

  function FirstBlock(offset: nat, bs: nat): nat
    requires bs >= 1
  {
    offset / bs
  }

  function LastBlock(offset: nat, len: nat, bs: nat): int
    requires bs >= 1
  {
    (offset + len - 1) / bs
  }

  /** How many whole blocks `len` bytes are. */
  function BlocksIn(len: nat, bs: nat): nat
    requires bs >= 1
  {
    len / bs
  }

  /** Position `x` lies in block `b`, clipped to the file. */
  predicate InBlock(b: nat, bs: nat, size: nat, x: int) {
    b * bs <= x < BlockEndBoundary(b + 1, bs, size)
  }

  ghost predicate BlockWritten(written: set<int>, b: nat, bs: nat, size: nat) {
    forall x :: InBlock(b, bs, size, x) ==> x in written
  }

  ghost predicate SpanWritten(written: set<int>, from: int, to: int) {
    forall x :: from <= x < to ==> x in written
  }

  /** Every marked block has been written. */
  ghost predicate MarksBacked(m: seq<bool>, written: set<int>, bs: nat, size: nat) {
    forall b :: 0 <= b < |m| && m[b] ==> BlockWritten(written, b, bs, size)
  }

  function MarkBlocks(m: seq<bool>, first: nat, last: int): (r: seq<bool>)
    ensures |r| == |m|
    ensures forall b :: 0 <= b < |m| ==> r[b] == (m[b] || first <= b <= last)
  {
    seq(|m|, b requires 0 <= b < |m| => m[b] || first <= b <= last)
  }

  /** The marks with the blocks of one chunk on top; an empty chunk has none. */
  function WithChunk(m: seq<bool>, offset: nat, len: nat, bs: nat): seq<bool>
    requires bs >= 1
  {
    if len == 0 then m else MarkBlocks(m, FirstBlock(offset, bs), LastBlock(offset, len, bs))
  }
}

module UploadBlocks {
  import opened Base
  import opened BlockMarks
  import opened Blocks
  import opened BlockSizes
  import opened UploadSpec

  lemma Quotient(x: nat, d: nat)
    requires d >= 1
    ensures (x / d) * d <= x < (x / d + 1) * d
  {
    assert x == (x / d) * d + x % d;
    assert (x / d + 1) * d == (x / d) * d + d;
  }

  lemma QuotientMono(x: nat, y: nat, d: nat)
    requires d >= 1 && x <= y
    ensures x / d <= y / d
  {
    Quotient(x, d);
    Quotient(y, d);
    if y / d + 1 <= x / d {
      MulMono(y / d + 1, x / d, d);
    }
  }

  lemma MultipleIs(offset: nat, d: nat)
    requires d >= 1 && offset % d == 0
    ensures offset == (offset / d) * d
  {
  }

  lemma SumOfMultiples(a: nat, b: nat, d: nat)
    requires d >= 1 && a % d == 0 && b % d == 0
    ensures a + b == (a / d + b / d) * d
  {
    MultipleIs(a, d);
    MultipleIs(b, d);
  }

  lemma LastBlockEnd(end: nat, k: nat, d: nat)
    requires d >= 1 && k >= 1 && end == k * d
    ensures (end - 1) / d + 1 == k
  {
    Quotient(end - 1, d);
    var q := (end - 1) / d;
    assert (q + 2) * d == (q + 1) * d + d;
    MulMono(q + 2, k, d);
    MulMono(k, q, d);
  }

  /** The clipped end of the last block of an accepted chunk is the chunk's end. */
  lemma ChunkEnds(offset: nat, len: nat, bs: nat, size: nat)
    requires bs >= 1 && offset % bs == 0 && len > 0 && ValidBlockChunk(offset, len, bs, size)
    ensures var last := (offset + len - 1) / bs; BlockEndBoundary(last + 1, bs, size) == offset + len
  {
    var last := (offset + len - 1) / bs;
    Quotient(offset + len - 1, bs);
    if len % bs == 0 {
      SumOfMultiples(offset, len, bs);
      MultipleIs(len, bs);
      var k := offset / bs + len / bs;
      if k == 0 {
        MulMono(k, 0, bs);
      }
      LastBlockEnd(offset + len, k, bs);
    }
  }

  /** The blocks an accepted chunk marks are, clipped to the file, exactly the chunk's positions. */
  lemma AcceptedBlocksExact(offset: nat, len: nat, bs: nat, size: nat, x: int)
    requires bs >= 1 && offset % bs == 0 && len > 0 && ValidBlockChunk(offset, len, bs, size)
    ensures offset <= x < offset + len
            <==> exists b: nat :: offset / bs <= b <= (offset + len - 1) / bs && InBlock(b, bs, size, x)
  {
    var first, last := offset / bs, (offset + len - 1) / bs;
    MultipleIs(offset, bs);
    ChunkEnds(offset, len, bs, size);
    if offset <= x < offset + len {
      Quotient(x, bs);
      QuotientMono(offset, x, bs);
      QuotientMono(x, offset + len - 1, bs);
      assert InBlock(x / bs, bs, size, x);
    }
    if b: nat :| first <= b <= last && InBlock(b, bs, size, x) {
      MulMono(first, b, bs);
      MulMono(b + 1, last + 1, bs);
    }
  }

  /** Marking an accepted chunk's blocks after its bytes were written keeps the marks backed. */
  lemma AcceptedKeepsBacked(m: seq<bool>, written: set<int>, offset: nat, len: nat, bs: nat, size: nat)
    requires bs >= 1 && offset % bs == 0 && len > 0 && ValidBlockChunk(offset, len, bs, size)
    requires MarksBacked(m, written, bs, size) && SpanWritten(written, offset, offset + len)
    ensures MarksBacked(MarkBlocks(m, offset / bs, (offset + len - 1) / bs), written, bs, size)
  {
    forall b | 0 <= b < |m| && offset / bs <= b <= (offset + len - 1) / bs
      ensures BlockWritten(written, b, bs, size)
    {
      OneAccepted(written, offset, len, bs, size, b);
    }
  }

  lemma OneAccepted(written: set<int>, offset: nat, len: nat, bs: nat, size: nat, b: nat)
    requires bs >= 1 && offset % bs == 0 && len > 0 && ValidBlockChunk(offset, len, bs, size)
    requires SpanWritten(written, offset, offset + len) && offset / bs <= b <= (offset + len - 1) / bs
    ensures BlockWritten(written, b, bs, size)
  {
    forall x | InBlock(b, bs, size, x)
      ensures x in written
    {
      AcceptedBlocksExact(offset, len, bs, size, x);
    }
  }

  lemma MoreWritten(m: seq<bool>, written: set<int>, more: set<int>, bs: nat, size: nat)
    requires MarksBacked(m, written, bs, size) && written <= more
    ensures MarksBacked(m, more, bs, size)
  {
    forall b | 0 <= b < |m| && m[b]
      ensures BlockWritten(more, b, bs, size)
    {
      assert BlockWritten(written, b, bs, size);
    }
  }

  /** All blocks marked: the whole file has been written. */
  lemma AllMarkedWritten(m: seq<bool>, written: set<int>, bs: nat, size: nat)
    requires bs >= 1 && |m| == BlockCountFor(size, bs) && AllMarked(m) && MarksBacked(m, written, bs, size)
    ensures SpanWritten(written, 0, size)
  {
    BoundsCut(size, bs, m);
    forall x | 0 <= x < size
      ensures x in written
    {
      var b := BlockOf(Bounds(size, bs), |m|, x);
      assert m[b] && BlockWritten(written, b, bs, size);
      assert InBlock(b, bs, size, x);
    }
  }
}

/** Aligned uploads with any number of chunks in flight: each one writes, then marks, and may fail at any point. */
module UploadRace {
  import opened Base
  import opened Ranges
  import opened BlockMarks
  import opened BlockSizes
  import opened UploadSpec
  import opened UploadBlocks

  datatype Writer =
    | Streaming(offset: nat, len: nat)
    | Marking(offset: nat, len: nat, next: nat)

  datatype Upload = Upload(marks: seq<bool>, written: set<int>, writers: map<nat, Writer>)

  datatype Action =
    | Open(id: nat, offset: nat)
    | WriteMore(id: nat, n: nat)
    | Fail(id: nat)
    | EndOfChunk(id: nat)
    | MarkNext(id: nat)

  ghost predicate Enabled(u: Upload, a: Action) {
    match a
    case Open(id, _) => id !in u.writers
    case WriteMore(id, _) => id in u.writers && u.writers[id].Streaming?
    case Fail(id) => id in u.writers && u.writers[id].Streaming?
    case EndOfChunk(id) => id in u.writers && u.writers[id].Streaming?
    case MarkNext(id) => id in u.writers && u.writers[id].Marking?
  }

  /** A chunk at a misaligned offset is refused; an empty, misaligned or oversized one ends without marking anything. */
  ghost function Next(u: Upload, bs: nat, size: nat, a: Action): Upload
    requires bs >= 1 && Enabled(u, a)
  {
    match a
    case Open(id, offset) =>
      if offset % bs != 0 then u else u.(writers := u.writers[id := Streaming(offset, 0)])
    case WriteMore(id, n) =>
      var w := u.writers[id];
      u.(written := u.written + Interval(w.offset + w.len, w.offset + w.len + n),
         writers := u.writers[id := Streaming(w.offset, w.len + n)])
    case Fail(id) => u.(writers := u.writers - {id})
    case EndOfChunk(id) =>
      var w := u.writers[id];
      if w.len == 0 || !ValidBlockChunk(w.offset, w.len, bs, size) then u.(writers := u.writers - {id})
      else u.(writers := u.writers[id := Marking(w.offset, w.len, w.offset / bs)])
    case MarkNext(id) =>
      var w := u.writers[id];
      if w.next > (w.offset + w.len - 1) / bs then u.(writers := u.writers - {id})
      else
        u.(marks := if w.next < |u.marks| then u.marks[w.next := true] else u.marks,
           writers := u.writers[id := w.(next := w.next + 1)])
  }

  ghost predicate WriterOk(w: Writer, written: set<int>, bs: nat, size: nat)
    requires bs >= 1
  {
    && w.offset % bs == 0 && SpanWritten(written, w.offset, w.offset + w.len)
    && (w.Marking? ==> w.len > 0 && ValidBlockChunk(w.offset, w.len, bs, size) && w.next >= w.offset / bs)
  }

  ghost predicate Inv(u: Upload, bs: nat, size: nat)
    requires bs >= 1
  {
    && MarksBacked(u.marks, u.written, bs, size)
    && forall id :: id in u.writers ==> WriterOk(u.writers[id], u.written, bs, size)
  }

  lemma NextKeeps(u: Upload, bs: nat, size: nat, a: Action)
    requires bs >= 1 && Inv(u, bs, size) && Enabled(u, a)
    ensures Inv(Next(u, bs, size, a), bs, size) && |Next(u, bs, size, a).marks| == |u.marks|
  {
    match a
    case Open(id, offset) =>
    case WriteMore(id, n) =>
      MoreWritten(u.marks, u.written, Next(u, bs, size, a).written, bs, size);
    case Fail(id) =>
    case EndOfChunk(id) =>
    case MarkNext(id) =>
      var w := u.writers[id];
      if w.next <= (w.offset + w.len - 1) / bs && w.next < |u.marks| {
        OneAccepted(u.written, w.offset, w.len, bs, size, w.next);
      }
  }

  ghost predicate Run(u: Upload, bs: nat, size: nat, actions: seq<Action>, end: Upload)
    requires bs >= 1
    decreases |actions|
  {
    if actions == [] then end == u
    else Enabled(u, actions[0]) && Run(Next(u, bs, size, actions[0]), bs, size, actions[1..], end)
  }

  lemma {:induction false} RunKeeps(u: Upload, bs: nat, size: nat, actions: seq<Action>, end: Upload)
    requires bs >= 1 && Inv(u, bs, size) && Run(u, bs, size, actions, end)
    ensures Inv(end, bs, size) && |end.marks| == |u.marks|
    decreases |actions|
  {
    if actions != [] {
      NextKeeps(u, bs, size, actions[0]);
      RunKeeps(Next(u, bs, size, actions[0]), bs, size, actions[1..], end);
    }
  }

  /** In every interleaving of chunks, failures included: a full bitmap means every byte of the file was written. */
  lemma CompleteMeansWritten(bs: nat, size: nat, actions: seq<Action>, end: Upload)
    requires bs >= 1
    requires Run(Upload(seq(BlockCountFor(size, bs), _ => false), {}, map[]), bs, size, actions, end)
    requires AllMarked(end.marks)
    ensures SpanWritten(end.written, 0, size)
  {
    RunKeeps(Upload(seq(BlockCountFor(size, bs), _ => false), {}, map[]), bs, size, actions, end);
    AllMarkedWritten(end.marks, end.written, bs, size);
  }
}
