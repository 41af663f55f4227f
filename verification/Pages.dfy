/** Page headers round-trip, pages read back, and in-place header writes stay inside their fields. */
module Pages {
  import opened Base
  import opened PageFormat
  import LE = LittleEndian
  import Disk

  // ---- byte ranges

  lemma AtPrefix(b: Bytes, more: Bytes, off: nat, x: Bytes)
    requires At(b, off, x)
    ensures At(b + more, off, x)
  {
    assert (b + more)[off..off + |x|] == b[off..off + |x|];
  }

  lemma WriteAtHere(b: Bytes, off: nat, x: Bytes)
    ensures At(WriteAt(b, off, x), off, x)
  {
  }

  /** A write leaves every byte outside its range as it was. */
  lemma WriteAtElsewhere(b: Bytes, off: nat, x: Bytes, from: nat, to: nat)
    requires from <= to <= |b| && (to <= off || off + |x| <= from)
    ensures WriteAt(b, off, x)[from..to] == b[from..to]
  {
    var w := WriteAt(b, off, x);
    forall i | from <= i < to
      ensures w[i] == b[i]
    {
    }
  }

  lemma SubRange(b: Bytes, at: nat, len: nat, from: nat, to: nat)
    requires at + len <= |b| && from <= to <= len
    ensures b[at..at + len][from..to] == b[at + from..at + to]
  {
    var x, y := b[at..at + len][from..to], b[at + from..at + to];
    assert |x| == |y| && forall i :: 0 <= i < |x| ==> x[i] == y[i];
  }

  // ---- flags

  lemma {:induction false} OrZero(a: nat, width: nat)
    requires a < Pow2(width)
    ensures Or(a, 0, width) == a
    decreases width
  {
    if width > 0 {
      OrZero(a / 2, width - 1);
    }
  }

  lemma SetDeleted(a: Byte)
    ensures SetFlags(a, FLAG_DELETED) == if IsDeleted(a) then a else a + 1
  {
    assert Pow2(7) == 2 * Pow2(6) && Pow2(6) == 2 * Pow2(5) && Pow2(5) == 2 * Pow2(4);
    assert Pow2(4) == 2 * Pow2(3) && Pow2(3) == 2 * Pow2(2) && Pow2(2) == 2 * Pow2(1);
    OrZero(a / 2, 7);
    assert Or(a, 1, 8) == 1 + 2 * Or(a / 2, 0, 7);
  }

  lemma SetKeepsDeleted(a: Byte, b: Byte)
    ensures IsDeleted(SetFlags(a, b)) <==> IsDeleted(a) || IsDeleted(b)
  {
  }

  lemma MagicBack(flags: Byte)
    ensures DecodeMagic(EncodeMagic(flags)) == Some(flags)
  {
    LE.Pow256Values();
    LE.GetPut(SENTINEL + flags, 4);
  }

  // ---- headers

  lemma HeaderFields(h: Header)
    ensures var b := EncodeHeader(h);
            && b[0..8] == LE.Put(h.dataLen, 8) && b[8..40] == h.chunkId && b[40..72] == h.blobId
            && b[72..76] == LE.Put(h.chunkSeq, 4) && b[76..80] == LE.Put(h.totalChunks, 4)
            && b[80..84] == LE.Put(h.crc, 4) && b[84..88] == EncodeMagic(h.flags)
  {
  }

  /** A header decodes to what was encoded. */
  lemma HeaderBack(h: Header)
    ensures DecodeHeader(EncodeHeader(h)) == Ok(h)
  {
    LE.Pow256Values();
    HeaderFields(h);
    MagicBack(h.flags);
    LE.GetPut(h.dataLen, 8);
    LE.GetPut(h.chunkSeq, 4);
    LE.GetPut(h.totalChunks, 4);
    LE.GetPut(h.crc, 4);
  }

  lemma SevenFields(b: Bytes)
    requires |b| == HEADER
    ensures b[0..8] + b[8..40] + b[40..72] + b[72..76] + b[76..80] + b[80..84] + b[84..88] == b
  {
  }

  /** Bytes that decode re-encode to themselves: no two headers share an encoding and no bit is lost. */
  lemma HeaderForth(b: Bytes)
    requires |b| == HEADER && DecodeHeader(b).Ok?
    ensures EncodeHeader(DecodeHeader(b).value) == b
  {
    LE.Pow256Values();
    LE.PutGet(b[0..8]);
    LE.PutGet(b[72..76]);
    LE.PutGet(b[76..80]);
    LE.PutGet(b[80..84]);
    LE.PutGet(b[84..88]);
    assert SENTINEL + LE.Get(b[84..88]) % 256 == LE.Get(b[84..88]);
    SevenFields(b);
  }

  // ---- what appendChunk writes

  lemma PageAloneHolds(h: Header, slice: Bytes, pageSize: PageSize)
    requires |slice| <= pageSize - HEADER && h.dataLen == |slice|
    ensures PageHolds(PageBytes(h, slice, pageSize), pageSize, 0, slice, h.crc, IsDeleted(h.flags))
  {
    var head, zeros := EncodeHeader(h), Zeros(pageSize - HEADER - |slice|);
    HeaderFields(h);
    MagicBack(h.flags);
    InFirst(head, slice, zeros, 0, 8);
    InFirst(head, slice, zeros, 80, 84);
    InFirst(head, slice, zeros, 84, 88);
    IsMiddle(head, slice, zeros);
  }

  lemma InFirst(a: Bytes, b: Bytes, c: Bytes, from: nat, to: nat)
    requires from <= to <= |a|
    ensures (a + b + c)[from..to] == a[from..to]
  {
  }

  lemma IsMiddle(a: Bytes, b: Bytes, c: Bytes)
    ensures (a + b + c)[|a|..|a| + |b|] == b
  {
  }

  lemma PageBytesHold(pre: Bytes, h: Header, slice: Bytes, pageSize: PageSize, post: Bytes)
    requires |slice| <= pageSize - HEADER && h.dataLen == |slice|
    ensures PageHolds(pre + PageBytes(h, slice, pageSize) + post, pageSize, |pre|, slice, h.crc, IsDeleted(h.flags))
  {
    PageAloneHolds(h, slice, pageSize);
    PageMoves(PageBytes(h, slice, pageSize), pre, post, pageSize, slice, h.crc, IsDeleted(h.flags));
  }

  /** The bytes of a page hold the same wherever they stand: a verbatim copy reads like its original. */
  lemma PageMoves(page: Bytes, pre: Bytes, post: Bytes, pageSize: PageSize, slice: Bytes, crc: Uint32, deleted: bool)
    requires |page| == pageSize
    requires PageHolds(page, pageSize, 0, slice, crc, deleted)
    ensures PageHolds(pre + page + post, pageSize, |pre|, slice, crc, deleted)
  {
    var file := pre + page + post;
    assert forall a, b :: 0 <= a <= b <= pageSize ==> file[|pre| + a..|pre| + b] == page[a..b];
    assert file[|pre| + 0..|pre| + 8] == page[0..8];
    assert file[|pre| + 80..|pre| + 84] == page[80..84];
    assert file[|pre| + 84..|pre| + 88] == page[84..88];
    assert file[|pre| + HEADER..|pre| + (HEADER + |slice|)] == page[HEADER..HEADER + |slice|];
  }

  lemma {:induction false} SlicesFit(data: Bytes, capacity: nat)
    requires capacity >= 1
    ensures forall s :: s in Disk.Slices(data, capacity) ==> |s| <= capacity
    decreases |data|
  {
    if |data| > capacity {
      SlicesFit(data[capacity..], capacity);
    }
  }

  lemma TimesStep(n: nat, m: nat)
    requires n > 0
    ensures n * m == m + (n - 1) * m
  {
  }

  lemma {:induction false} ChunkBytesLength(h: Header, slices: seq<Bytes>, pageSize: PageSize)
    requires forall s :: s in slices ==> |s| <= pageSize - HEADER
    ensures |ChunkBytes(h, slices, pageSize)| == |slices| * pageSize
    decreases |slices|
  {
    if slices != [] {
      ChunkBytesLength(h.(crc := 0), slices[1..], pageSize);
      TimesStep(|slices|, pageSize);
    }
  }

  lemma PageAtNext(pageSize: PageSize, n: nat)
    ensures PageAt(pageSize, n + 1) == PageAt(pageSize, n) + pageSize
  {
  }

  lemma Middle(a: Bytes, b: Bytes, c: Bytes, d: Bytes)
    ensures a + (b + c) + d == a + b + (c + d) == (a + b) + c + d
  {
  }

  lemma {:induction false} ChunkBytesHold(
    pre: Bytes, h: Header, slices: seq<Bytes>, pageSize: PageSize, n: nat, post: Bytes, dead: set<nat>)
    requires (forall s :: s in slices ==> |s| <= pageSize - HEADER) && |pre| == PageAt(pageSize, n) && !IsDeleted(h.flags)
    requires forall m :: m in dead ==> m < n
    ensures PagesHold(pre + ChunkBytes(h, slices, pageSize) + post, pageSize, n, slices, h.crc, dead)
    decreases |slices|
  {
    if slices != [] {
      var h0 := h.(dataLen := |slices[0]|);
      var page := PageBytes(h0, slices[0], pageSize);
      var rest := ChunkBytes(h.(crc := 0), slices[1..], pageSize);
      PageBytesHold(pre, h0, slices[0], pageSize, rest + post);
      PageAtNext(pageSize, n);
      ChunkBytesHold(pre + page, h.(crc := 0), slices[1..], pageSize, n + 1, post, dead);
      Middle(pre, page, rest, post);
      FirstAndRest(pre + ChunkBytes(h, slices, pageSize) + post, pageSize, n, slices, h.crc, dead);
    }
  }

  lemma FirstAndRest(file: Bytes, pageSize: PageSize, n: nat, slices: seq<Bytes>, crc: Uint32, dead: set<nat>)
    requires slices != []
    requires PageHolds(file, pageSize, PageAt(pageSize, n), slices[0], crc, n in dead)
    requires PagesHold(file, pageSize, n + 1, slices[1..], 0, dead)
    ensures PagesHold(file, pageSize, n, slices, crc, dead)
  {
    forall i | 0 <= i < |slices|
      ensures PageHolds(file, pageSize, PageAt(pageSize, n + i), slices[i], if i == 0 then crc else 0, n + i in dead)
    {
      if i > 0 {
        var k := i - 1;
        assert slices[1..][k] == slices[i] && n + 1 + k == n + i;
      }
    }
  }

  // ---- reading

  /** A whole unflagged page reads as its slice, whatever the buffer held before; a flagged one is refused. */
  lemma ReadPageBack(file: Bytes, at: nat, buf: Bytes, slice: Bytes, crc: Uint32, deleted: bool)
    requires HEADER < |buf| < LE.TWO_63 && PageHolds(file, |buf|, at, slice, crc, deleted)
    ensures ReadPage(file, at, buf) == if deleted then Err(Deleted) else Ok(PageRead(crc, slice))
  {
    LE.Pow256Values();
    var b := Fill(file, at, buf).0;
    assert b == file[at..at + |buf|] && b[..HEADER] == file[at..at + HEADER];
    SubRange(file, at, HEADER, 84, 88);
    SubRange(file, at, HEADER, 0, 8);
    SubRange(file, at, HEADER, 80, 84);
    SubRange(file, at, |buf|, HEADER, HEADER + |slice|);
    LE.GetPut(|slice|, 8);
    LE.GetPut(crc, 4);
  }

  /** The reading loop over pages that each yield their slice. */
  lemma {:induction false} ReadPagesBack(read: Reader, i: nat, slices: seq<Bytes>)
    requires i <= |slices|
    requires forall k :: i <= k < |slices| ==> read(k).Ok? && read(k).value.payload == slices[k]
    ensures ReadPages(read, i, |slices|) == Ok(Flatten(slices[i..]))
    decreases |slices| - i
  {
    if i < |slices| {
      assert slices[i..][1..] == slices[i + 1..];
      ReadPagesBack(read, i + 1, slices);
    }
  }

  /** One flagged page refuses the whole chunk. */
  lemma {:induction false} ReadPagesDeleted(read: Reader, i: nat, pages: nat, at: nat)
    requires i <= at < pages && read(at) == Err(Deleted)
    requires forall k :: i <= k < pages ==> read(k).Ok? || read(k) == Err(Deleted)
    ensures ReadPages(read, i, pages) == Err(Deleted)
    decreases pages - i
  {
    if i < at {
      ReadPagesDeleted(read, i + 1, pages, at);
    }
  }

  lemma PageNumber(pageSize: PageSize, n: nat, i: nat)
    ensures PageAt(pageSize, n) + i * pageSize == PageAt(pageSize, n + i)
  {
  }

  lemma ReadBack(read: Reader, slices: seq<Bytes>, crc: Bytes -> Uint32)
    requires slices != []
    requires forall k :: 0 <= k < |slices| ==> read(k).Ok? && read(k).value.payload == slices[k]
    requires read(0).value.crc == crc(Flatten(slices))
    ensures ReadChunk(read, |slices|, crc) == Ok(Flatten(slices))
  {
    ReadPagesBack(read, 0, slices);
    assert slices[0..] == slices;
  }

  lemma PageReads(file: Bytes, pageSize: PageSize, n: nat, slices: seq<Bytes>, stale: nat -> Bytes, crc: Uint32,
                  dead: set<nat>, i: nat)
    requires i < |slices| && |stale(i)| == pageSize && PagesHold(file, pageSize, n, slices, crc, dead)
    ensures ReaderOf(file, PageAt(pageSize, n), pageSize, stale)(i)
            == if n + i in dead then Err(Deleted) else Ok(PageRead(if i == 0 then crc else 0, slices[i]))
  {
    PageNumber(pageSize, n, i);
    var at := PageAt(pageSize, n) + i * pageSize;
    assert PageHolds(file, pageSize, at, slices[i], if i == 0 then crc else 0, n + i in dead);
    ReadPageBack(file, at, stale(i), slices[i], if i == 0 then crc else 0, n + i in dead);
  }

  lemma ReadIff(read: Reader, n: nat, slices: seq<Bytes>, crc: Bytes -> Uint32, dead: set<nat>)
    requires slices != []
    requires forall i: nat :: i < |slices| ==>
               read(i) == if n + i in dead then Err(Deleted)
                          else Ok(PageRead(if i == 0 then crc(Flatten(slices)) else 0, slices[i]))
    ensures ReadChunk(read, |slices|, crc)
            == if exists m :: m in dead && n <= m < n + |slices| then Err(Deleted) else Ok(Flatten(slices))
  {
    if m :| m in dead && n <= m < n + |slices| {
      assert read(m - n) == Err(Deleted);
      ReadPagesDeleted(read, 0, |slices|, m - n);
    } else {
      ReadBack(read, slices, crc);
    }
  }

  /** The same for any list of slices with this payload. */
  lemma ReadSlicesBack(file: Bytes, pageSize: PageSize, n: nat, slices: seq<Bytes>, stale: nat -> Bytes,
                       crc: Bytes -> Uint32, dead: set<nat>)
    requires slices != [] && forall i :: 0 <= i ==> |stale(i)| == pageSize
    requires PagesHold(file, pageSize, n, slices, crc(Flatten(slices)), dead)
    ensures ReadChunk(ReaderOf(file, PageAt(pageSize, n), pageSize, stale), |slices|, crc)
            == if exists m :: m in dead && n <= m < n + |slices| then Err(Deleted) else Ok(Flatten(slices))
  {
    var read := ReaderOf(file, PageAt(pageSize, n), pageSize, stale);
    forall i: nat | i < |slices|
      ensures read(i) == if n + i in dead then Err(Deleted)
                         else Ok(PageRead(if i == 0 then crc(Flatten(slices)) else 0, slices[i]))
    {
      PageReads(file, pageSize, n, slices, stale, crc(Flatten(slices)), dead, i);
    }
    ReadIff(read, n, slices, crc, dead);
  }

  /** A chunk whose pages hold its slices reads back exactly if none of them is flagged. */
  lemma ReadChunkBack(file: Bytes, pageSize: PageSize, n: nat, payload: Bytes, stale: nat -> Bytes,
                      crc: Bytes -> Uint32, dead: set<nat>)
    requires forall i :: 0 <= i ==> |stale(i)| == pageSize
    requires PagesHold(file, pageSize, n, Disk.Slices(payload, pageSize - HEADER), crc(payload), dead)
    ensures var read := ReaderOf(file, PageAt(pageSize, n), pageSize, stale);
            var pages := |Disk.Slices(payload, pageSize - HEADER)|;
            ReadChunk(read, pages, crc)
            == if exists m :: m in dead && n <= m < n + pages then Err(Deleted) else Ok(payload)
  {
    Disk.SlicesJoin(payload, pageSize - HEADER);
    ReadSlicesBack(file, pageSize, n, Disk.Slices(payload, pageSize - HEADER), stale, crc, dead);
  }

  // ---- in-place header writes

  /** A read looks at four ranges of the page's bytes. */
  lemma SameFieldsHold(file: Bytes, file': Bytes, pageSize: PageSize, at: nat, slice: Bytes, crc: Uint32, deleted: bool)
    requires PageHolds(file, pageSize, at, slice, crc, deleted) && |file| <= |file'|
    requires file'[at..at + 8] == file[at..at + 8] && file'[at + 80..at + 84] == file[at + 80..at + 84]
    requires file'[at + 84..at + 88] == file[at + 84..at + 88]
    requires file'[at + HEADER..at + HEADER + |slice|] == file[at + HEADER..at + HEADER + |slice|]
    ensures PageHolds(file', pageSize, at, slice, crc, deleted)
  {
  }

  /** A write into another page's bytes. */
  lemma OtherPageHolds(file: Bytes, pageSize: PageSize, at: nat, slice: Bytes, crc: Uint32, deleted: bool,
                       off: nat, x: Bytes)
    requires PageHolds(file, pageSize, at, slice, crc, deleted)
    requires off + |x| <= at || at + pageSize <= off
    ensures PageHolds(WriteAt(file, off, x), pageSize, at, slice, crc, deleted)
  {
    WriteAtElsewhere(file, off, x, at, at + 8);
    WriteAtElsewhere(file, off, x, at + 80, at + 84);
    WriteAtElsewhere(file, off, x, at + 84, at + 88);
    WriteAtElsewhere(file, off, x, at + HEADER, at + HEADER + |slice|);
    SameFieldsHold(file, WriteAt(file, off, x), pageSize, at, slice, crc, deleted);
  }

  /** The blob id and total-chunks fields lie between the fields a read looks at. */
  lemma FieldWriteHolds(file: Bytes, pageSize: PageSize, at: nat, slice: Bytes, crc: Uint32, deleted: bool,
                        off: nat, x: Bytes)
    requires PageHolds(file, pageSize, at, slice, crc, deleted) && at + 8 <= off && off + |x| <= at + 80
    ensures PageHolds(WriteAt(file, off, x), pageSize, at, slice, crc, deleted)
  {
    WriteAtElsewhere(file, off, x, at, at + 8);
    WriteAtElsewhere(file, off, x, at + 80, at + 84);
    WriteAtElsewhere(file, off, x, at + 84, at + 88);
    WriteAtElsewhere(file, off, x, at + HEADER, at + HEADER + |slice|);
  }

  lemma MagicWriteHolds(file: Bytes, pageSize: PageSize, at: nat, slice: Bytes, crc: Uint32, deleted: bool, flags: Byte)
    requires PageHolds(file, pageSize, at, slice, crc, deleted)
    ensures PageHolds(WriteAt(file, at + 84, EncodeMagic(flags)), pageSize, at, slice, crc, IsDeleted(flags))
  {
    var x := EncodeMagic(flags);
    MagicBack(flags);
    WriteAtHere(file, at + 84, x);
    WriteAtElsewhere(file, at + 84, x, at, at + 8);
    WriteAtElsewhere(file, at + 84, x, at + 80, at + 84);
    WriteAtElsewhere(file, at + 84, x, at + HEADER, at + HEADER + |slice|);
  }

  /** MarkDeleted changes at most one byte of the file, and of that byte only the lowest bit. */
  lemma MarkDeletedOneBit(file: Bytes, at: nat)
    requires MarkDeleted(file, at).Some?
    ensures var old84, file' := file[at + 84], MarkDeleted(file, at).value;
            file' == file[at + 84 := if IsDeleted(old84) then old84 else old84 + 1]
  {
    LE.Pow256Values();
    var b := file[at + 84..at + 88];
    var flags := DecodeMagic(b).value;
    SetDeleted(flags);
    LE.PutGet(b);
    assert LE.Get(b) == b[0] + 256 * LE.Get(b[1..]);
    assert flags == b[0] == file[at + 84];
    var f' := SetFlags(flags, FLAG_DELETED);
    assert SENTINEL + f' == f' + 256 * LE.Get(b[1..]);
    assert EncodeMagic(f') == [f'] + LE.Put(LE.Get(b[1..]), 3);
    LE.PutGet(b[1..]);
    assert EncodeMagic(f') == [f'] + b[1..];
  }
}
