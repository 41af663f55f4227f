/**
 A segment file as volume.go handles it: pages assembled in a pooled buffer and
 written through a buffered writer, headers patched and flags set in place,
 chunks read page by page.
 */
module SegmentFile {
  import opened Base
  import opened PageFormat
  import opened Pages
  import LE = LittleEndian
  import Disk

  // ---- the page buffer

  /** copy(dst[at:], x) */
  method CopyInto(dst: array<Byte>, at: nat, x: Bytes)
    requires at + |x| <= dst.Length
    modifies dst
    ensures dst[..] == old(dst[..at]) + x + old(dst[at + |x|..])
  {
    forall i | 0 <= i < |x| {
      dst[at + i] := x[i];
    }
  }

  method Clear(dst: array<Byte>, at: nat)
    requires at <= dst.Length
    modifies dst
    ensures dst[..] == old(dst[..at]) + Zeros(dst.Length - at)
  {
    forall i | at <= i < dst.Length {
      dst[i] := 0;
    }
  }

  lemma Splice(pre: Bytes, b: Bytes, x: Bytes)
    requires |pre| + |x| <= |b|
    ensures (pre + b[|pre|..])[..|pre|] + x + (pre + b[|pre|..])[|pre| + |x|..] == (pre + x) + b[|pre + x|..]
  {
    assert (pre + b[|pre|..])[..|pre|] == pre;
    assert (pre + b[|pre|..])[|pre| + |x|..] == b[|pre| + |x|..];
  }

  /** Writes the next field behind the ones already in place. */
  method PutNext(dst: array<Byte>, ghost pre: Bytes, x: Bytes, at: nat, ghost was: Bytes)
    requires at == |pre| && at + |x| <= dst.Length == |was| && dst[..] == pre + was[|pre|..]
    modifies dst
    ensures dst[..] == (pre + x) + was[|pre + x|..]
  {
    Splice(pre, was, x);
    CopyInto(dst, at, x);
  }

  method EncodePageHeader(h: Header, dst: array<Byte>)
    requires dst.Length >= HEADER
    modifies dst
    ensures dst[..] == EncodeHeader(h) + old(dst[HEADER..])
  {
    ghost var was := dst[..];
    PutNext(dst, [], LE.Put(h.dataLen, 8), 0, was);
    ghost var pre := [] + LE.Put(h.dataLen, 8);
    PutNext(dst, pre, h.chunkId, 8, was);
    pre := pre + h.chunkId;
    PutNext(dst, pre, h.blobId, 40, was);
    pre := pre + h.blobId;
    PutNext(dst, pre, LE.Put(h.chunkSeq, 4), 72, was);
    pre := pre + LE.Put(h.chunkSeq, 4);
    PutNext(dst, pre, LE.Put(h.totalChunks, 4), 76, was);
    pre := pre + LE.Put(h.totalChunks, 4);
    PutNext(dst, pre, LE.Put(h.crc, 4), 80, was);
    pre := pre + LE.Put(h.crc, 4);
    PutNext(dst, pre, EncodeMagic(h.flags), 84, was);
    EncodedAs(h, pre);
  }

  lemma EncodedAs(h: Header, pre: Bytes)
    requires pre == [] + LE.Put(h.dataLen, 8) + h.chunkId + h.blobId + LE.Put(h.chunkSeq, 4) + LE.Put(h.totalChunks, 4)
                    + LE.Put(h.crc, 4)
    ensures pre + EncodeMagic(h.flags) == EncodeHeader(h)
  {
  }

  /** One page of appendChunk: header, slice, zero padding over whatever the pooled buffer held. */
  method FillPage(h: Header, slice: Bytes, pageBuf: array<Byte>)
    requires HEADER < pageBuf.Length < LE.TWO_63 && |slice| <= pageBuf.Length - HEADER
    modifies pageBuf
    ensures pageBuf[..] == PageBytes(h, slice, pageBuf.Length)
  {
    EncodePageHeader(h, pageBuf);
    ghost var head := pageBuf[..];
    CopyInto(pageBuf, HEADER, slice);
    assert head[..HEADER] == EncodeHeader(h);
    ghost var filled := pageBuf[..];
    Clear(pageBuf, HEADER + |slice|);
    assert filled[..HEADER + |slice|] == EncodeHeader(h) + slice;
  }

  function PageOf(h: Header, first: bool, len: nat): Header
    requires len < LE.TWO_64
  {
    h.(dataLen := len, crc := if first then h.crc else 0)
  }

  /** What the append loop has yet to write: an empty payload still takes its first page. */
  function StillToWrite(h: Header, first: bool, remaining: Bytes, pageSize: PageSize): Bytes {
    if !first && remaining == [] then []
    else
      SlicesFit(remaining, pageSize - HEADER);
      ChunkBytes(if first then h else h.(crc := 0), Disk.Slices(remaining, pageSize - HEADER), pageSize)
  }

  function PagesLeft(first: bool, remaining: Bytes, pageSize: PageSize): nat {
    if !first && remaining == [] then 0 else |Disk.Slices(remaining, pageSize - HEADER)|
  }

  lemma LastPage(h: Header, first: bool, slice: Bytes, pageSize: PageSize)
    requires |slice| <= pageSize - HEADER && (first || slice != [])
    ensures StillToWrite(h, first, slice, pageSize) == PageBytes(PageOf(h, first, |slice|), slice, pageSize)
    ensures PagesLeft(first, slice, pageSize) == 1
  {
    var h1 := if first then h else h.(crc := 0);
    assert ChunkBytes(h1.(crc := 0), [slice][1..], pageSize) == [];
    assert ChunkBytes(h1, [slice], pageSize) == PageBytes(PageOf(h, first, |slice|), slice, pageSize) + [];
  }

  lemma NextPage(h: Header, first: bool, remaining: Bytes, pageSize: PageSize)
    requires |remaining| > pageSize - HEADER
    ensures var capacity := pageSize - HEADER;
            && StillToWrite(h, first, remaining, pageSize)
               == PageBytes(PageOf(h, first, capacity), remaining[..capacity], pageSize)
                  + StillToWrite(h, false, remaining[capacity..], pageSize)
            && PagesLeft(first, remaining, pageSize) == 1 + PagesLeft(false, remaining[capacity..], pageSize)
  {
    var capacity := pageSize - HEADER;
    var slices := Disk.Slices(remaining, capacity);
    SlicesFit(remaining, capacity);
    assert slices[1..] == Disk.Slices(remaining[capacity..], capacity);
  }

  /** One turn of the append loop. */
  lemma WriteStep(h: Header, first: bool, remaining: Bytes, pageSize: PageSize)
    requires first || remaining != []
    ensures var capacity := pageSize - HEADER;
            var slice := if |remaining| > capacity then remaining[..capacity] else remaining;
            var rest := remaining[|slice|..];
            && StillToWrite(h, first, remaining, pageSize)
               == PageBytes(PageOf(h, first, |slice|), slice, pageSize) + StillToWrite(h, false, rest, pageSize)
            && PagesLeft(first, remaining, pageSize) == 1 + PagesLeft(false, rest, pageSize)
  {
    if |remaining| > pageSize - HEADER {
      NextPage(h, first, remaining, pageSize);
    } else {
      LastPage(h, first, remaining, pageSize);
      var page := PageBytes(PageOf(h, first, |remaining|), remaining, pageSize);
      assert remaining[|remaining|..] == [] && page + [] == page;
    }
  }

  // ---- the reading loop

  function Joined(got: seq<PageRead>): Bytes {
    if got == [] then [] else got[0].payload + Joined(got[1..])
  }

  lemma JoinedSnoc(got: seq<PageRead>, p: PageRead)
    ensures Joined(got + [p]) == Joined(got) + p.payload
  {
    if got == [] {
      assert got + [p] == [p];
    } else {
      JoinedSnoc(got[1..], p);
      assert (got + [p])[1..] == got[1..] + [p];
      ConcatAssoc(got[0].payload, Joined(got[1..]), p.payload);
    }
  }

  /** Pages read one by one, up to the last or the first that fails. */
  lemma {:induction false} ReadLoop(read: Reader, got: seq<PageRead>, i: nat, pages: nat, failed: Option<ReadError>)
    requires i <= |got| <= pages && forall k :: 0 <= k < |got| ==> read(k) == Ok(got[k])
    requires if |got| == pages then failed == None else failed.Some? && read(|got|) == Err(failed.value)
    ensures ReadPages(read, i, pages) == if failed.Some? then Err(failed.value) else Ok(Joined(got[i..]))
    decreases |got| - i
  {
    if i < |got| {
      assert got[i..][1..] == got[i + 1..];
      ReadLoop(read, got, i + 1, pages, failed);
    }
  }

  function StaleOf(seen: seq<Bytes>, blank: Bytes): nat -> Bytes {
    (k: nat) => if k < |seen| then seen[k] else blank
  }

  lemma LoopDone(read: Reader, got: seq<PageRead>, pages: nat, failed: Option<ReadError>, crc: Bytes -> Uint32)
    requires 1 <= pages && |got| <= pages && forall k :: 0 <= k < |got| ==> read(k) == Ok(got[k])
    requires if |got| == pages then failed == None else failed.Some? && read(|got|) == Err(failed.value)
    ensures ReadChunk(read, pages, crc)
            == if failed.Some? then Err(failed.value)
               else if crc(Joined(got)) != got[0].crc then Err(BadChecksum) else Ok(Joined(got))
  {
    ReadLoop(read, got, 0, pages, failed);
    assert got[0..] == got;
  }

  /** Page `k` of the chunk at `at`, read over `buf`, gives `r`. */
  ghost predicate Gave(file: Bytes, at: nat, pageSize: PageSize, k: nat, buf: Bytes, r: Result<PageRead, ReadError>) {
    ReadPage(file, at + k * pageSize, buf) == r
  }

  lemma GaveRead(file: Bytes, at: nat, pageSize: PageSize, seen: seq<Bytes>, blank: Bytes, k: nat,
                 r: Result<PageRead, ReadError>)
    requires k < |seen| && Gave(file, at, pageSize, k, seen[k], r)
    ensures ReaderOf(file, at, pageSize, StaleOf(seen, blank))(k) == r
  {
  }
}

module SegmentStore {
  import opened Base
  import opened PageFormat
  import opened Pages
  import opened FileRuns
  import opened SegmentFile
  import LE = LittleEndian
  import Disk

  class SegFile {
    const pageSize: PageSize
    var file: Bytes
    var pending: Bytes
    var offset: nat

    ghost predicate Valid()
      reads this
    {
      offset == |file| + |pending|
    }

    /** The file as it will be once the buffered writer is flushed. */
    ghost function Contents(): Bytes
      reads this
    {
      file + pending
    }

    constructor (pageSize: PageSize, header: Bytes)
      requires |header| == SEG_HEADER
      ensures Valid() && Contents() == header && pending == [] && this.pageSize == pageSize
    {
      this.pageSize := pageSize;
      file := header;
      pending := [];
      offset := SEG_HEADER;
    }

    /** The buffered writer; how much of the buffer a write spills into the file is left open. */
    method Write(buf: Bytes, spill: nat)
      modifies this`file, this`pending
      ensures Contents() == old(Contents()) + buf && old(file) <= file
    {
      pending := pending + buf;
      if spill <= |pending| {
        file, pending := file + pending[..spill], pending[spill..];
      }
    }

    method Flush()
      modifies this`file, this`pending
      ensures file == Contents() == old(Contents()) && pending == []
    {
      file, pending := file + pending, [];
    }

    /** appendChunk. `spills` only steers the buffered writer. */
    method AppendChunk(h: Header, payload: Bytes, pageBuf: array<Byte>, spills: seq<nat>) returns (at: nat, pageCount: nat)
      requires Valid() && pageBuf.Length == pageSize
      modifies this`file, this`pending, this`offset, pageBuf
      ensures Valid() && at == old(offset)
      ensures Contents() == Apply(old(Contents()), pageSize, Append(h, payload))
      ensures pageCount == |Disk.Slices(payload, pageSize - HEADER)|
    {
      at := offset;
      pageCount := 0;
      var remaining := payload;
      var firstPage := true;
      while |remaining| > 0 || firstPage
        invariant Valid()
        invariant firstPage ==> remaining == payload
        invariant Contents() + StillToWrite(h, firstPage, remaining, pageSize)
                  == old(Contents()) + StillToWrite(h, true, payload, pageSize)
        invariant pageCount + PagesLeft(firstPage, remaining, pageSize) == |Disk.Slices(payload, pageSize - HEADER)|
        decreases |remaining|, firstPage
      {
        WriteStep(h, firstPage, remaining, pageSize);
        var slice := remaining;
        if |slice| > pageSize - HEADER {
          slice := slice[..pageSize - HEADER];
        }
        remaining := remaining[|slice|..];
        ghost var before := Contents();
        WritePage(h, firstPage, slice, pageBuf, if pageCount < |spills| then spills[pageCount] else 0);
        ConcatAssoc(before, PageBytes(PageOf(h, firstPage, |slice|), slice, pageSize),
                    StillToWrite(h, false, remaining, pageSize));
        pageCount := pageCount + 1;
        firstPage := false;
        if |remaining| == 0 {
          break;
        }
      }
      assert Contents() + [] == Contents();
    }

    method WritePage(h: Header, firstPage: bool, slice: Bytes, pageBuf: array<Byte>, spill: nat)
      requires Valid() && pageBuf.Length == pageSize && |slice| <= pageSize - HEADER
      modifies this`file, this`pending, this`offset, pageBuf
      ensures Valid() && Contents() == old(Contents()) + PageBytes(PageOf(h, firstPage, |slice|), slice, pageSize)
    {
      FillPage(PageOf(h, firstPage, |slice|), slice, pageBuf);
      Write(pageBuf[..], spill);
      offset := offset + pageSize;
    }

    /** patchPage on pages that have reached the file. */
    method Patch(at: nat, blobId: Sha, totalChunks: Uint32, flags: Byte) returns (ok: bool)
      requires at + HEADER <= |file|
      modifies this`file
      ensures (file, ok) == PatchPage(old(file), at, blobId, totalChunks, flags)
      ensures |file| == |old(file)|
    {
      file := WriteAt(file, at + 76, LE.Put(totalChunks, 4));
      file := WriteAt(file, at + 40, blobId);
      match DecodeMagic(file[at + 84..at + 88]) {
        case None =>
          return false;
        case Some(existing) =>
          file := WriteAt(file, at + 84, EncodeMagic(SetFlags(existing, flags)));
          return true;
      }
    }

    method SetDeleted(at: nat) returns (ok: bool)
      modifies this`file
      ensures var r := MarkDeleted(old(file), at);
              ok == r.Some? && file == (if ok then r.value else old(file)) && |file| == |old(file)|
    {
      if at + 88 > |file| {
        return false;
      }
      match DecodeMagic(file[at + 84..at + 88]) {
        case None =>
          return false;
        case Some(flags) =>
          file := WriteAt(file, at + 84, EncodeMagic(SetFlags(flags, FLAG_DELETED)));
          return true;
      }
    }

    /** ReadAt on one page. */
    method ReadAt(at: nat, pageBuf: array<Byte>) returns (n: nat)
      modifies pageBuf
      ensures (pageBuf[..], n) == Fill(file, at, old(pageBuf[..]))
    {
      n := 0;
      if at < |file| {
        n := Min(pageBuf.Length, |file| - at);
        ghost var was := pageBuf[..];
        ghost var read := file[at..at + n];
        CopyInto(pageBuf, 0, file[at..at + n]);
        assert pageBuf[..] == read + was[n..];
      }
    }

    method ReadOne(at: nat, pageBuf: array<Byte>) returns (r: Result<PageRead, ReadError>)
      modifies pageBuf
      ensures r == ReadPage(file, at, old(pageBuf[..]))
    {
      var n := ReadAt(at, pageBuf);
      if n < HEADER {
        return Err(TooShort);
      }
      var decoded := DecodeHeader(pageBuf[..HEADER]);
      assert pageBuf[..HEADER] == pageBuf[..][..HEADER];
      match decoded {
        case Err(_) =>
          return Err(BadHeader);
        case Ok(h) =>
          if IsDeleted(h.flags) {
            return Err(Deleted);
          }
          var payloadLen := LE.ToInt64(h.dataLen);
          if payloadLen > pageBuf.Length - HEADER {
            return Err(LengthExceedsCapacity);
          }
          if payloadLen < 0 {
            return Err(SlicePanic);
          }
          assert pageBuf[HEADER..HEADER + payloadLen] == pageBuf[..][HEADER..HEADER + payloadLen];
          return Ok(PageRead(h.crc, pageBuf[HEADER..HEADER + payloadLen]));
      }
    }

    method ReadNth(at: nat, k: nat, pageBuf: array<Byte>) returns (r: Result<PageRead, ReadError>)
      modifies pageBuf
      ensures Gave(file, at, pageSize, k, old(pageBuf[..]), r)
    {
      r := ReadOne(at + k * pageSize, pageBuf);
    }

    /** The loop of ReadChunk; `seen` is what each read found in the buffer, `got` what it gave. */
    method ReadUpTo(at: nat, pages: nat, pageBuf: array<Byte>)
      returns (data: Bytes, stored: Uint32, failed: Option<ReadError>, ghost seen: seq<Bytes>, ghost got: seq<PageRead>)
      requires pageBuf.Length == pageSize && pages >= 1
      modifies pageBuf
      ensures |got| <= pages && |seen| == |got| + (if failed.Some? then 1 else 0)
      ensures forall k :: 0 <= k < |seen| ==> |seen[k]| == pageSize
      ensures forall k :: 0 <= k < |got| ==> Gave(file, at, pageSize, k, seen[k], Ok(got[k]))
      ensures if failed.None? then |got| == pages && data == Joined(got) && stored == got[0].crc
              else |got| < pages && Gave(file, at, pageSize, |got|, seen[|got|], Err(failed.value))
    {
      data, stored, failed, seen, got := [], 0, None, [], [];
      var i := 0;
      while i < pages
        invariant 0 <= i == |seen| == |got| <= pages && failed == None
        invariant forall k :: 0 <= k < |seen| ==> |seen[k]| == pageSize
        invariant forall k :: 0 <= k < |got| ==> Gave(file, at, pageSize, k, seen[k], Ok(got[k]))
        invariant data == Joined(got) && (i > 0 ==> stored == got[0].crc)
      {
        seen := seen + [pageBuf[..]];
        var page := ReadNth(at, i, pageBuf);
        if page.Err? {
          failed := Some(page.error);
          return;
        }
        if i == 0 {
          stored := page.value.crc;
        }
        JoinedSnoc(got, page.value);
        data := data + page.value.payload;
        got := got + [page.value];
        i := i + 1;
      }
    }

    /** ReadChunk: the result is that of reading page after page, `stale` being what each read found in the buffer. */
    method Read(at: nat, pageCount: int, pageBuf: array<Byte>, crc: Bytes -> Uint32)
      returns (r: Result<Bytes, ReadError>, ghost stale: nat -> Bytes)
      requires pageBuf.Length == pageSize
      modifies pageBuf
      ensures forall i :: 0 <= i ==> |stale(i)| == pageSize
      ensures r == ReadChunk(ReaderOf(file, at, pageSize, stale), pageCount, crc)
    {
      var pages: nat := if pageCount < 1 then 1 else pageCount;
      var data, stored, failed;
      ghost var seen, got;
      ghost var blank := pageBuf[..];
      data, stored, failed, seen, got := ReadUpTo(at, pages, pageBuf);
      stale := StaleOf(seen, blank);
      forall k | 0 <= k < |got|
        ensures ReaderOf(file, at, pageSize, stale)(k) == Ok(got[k])
      {
        GaveRead(file, at, pageSize, seen, blank, k, Ok(got[k]));
      }
      if failed.Some? {
        GaveRead(file, at, pageSize, seen, blank, |got|, Err(failed.value));
      }
      LoopDone(ReaderOf(file, at, pageSize, stale), got, pages, failed, crc);
      if failed.Some? {
        r := Err(failed.value);
      } else {
        r := if crc(data) != stored then Err(BadChecksum) else Ok(data);
      }
    }
  }
}
