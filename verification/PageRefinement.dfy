/** The pages the store reasons about are what the bytes of a segment file hold. */
module PageRefinement {
  import opened Base
  import opened Records
  import opened PageFormat
  import Disk

  /** The file has exactly the pages the map gives segment `seg`, `count` of them. */
  ghost predicate Represents(file: Bytes, pageSize: PageSize, pages: Disk.Pages, seg: nat, count: nat) {
    && |file| == PageAt(pageSize, count)
    && forall k :: 0 <= k < count ==> PageIs(file, pageSize, pages, Loc(seg, k))
  }

  ghost predicate PageIs(file: Bytes, pageSize: PageSize, pages: Disk.Pages, l: Loc) {
    && l in pages && pages[l].crc < 0x1_0000_0000
    && PageHolds(file, pageSize, PageAt(pageSize, l.off), pages[l].data, pages[l].crc, pages[l].deleted)
  }

  /** The reader's page `k` is the map's page `k` behind `l`. */
  ghost predicate ReadsAs(read: Reader, pages: Disk.Pages, l: Loc, k: nat) {
    var at := Loc(l.seg, l.off + k);
    && at in pages && pages[at].crc < 0x1_0000_0000
    && read(k) == if pages[at].deleted then Err(Deleted) else Ok(PageRead(pages[at].crc, pages[at].data))
  }

  /** The map knows a page that is missing; the file ends early there. */
  function Lift(r: Result<Bytes, Disk.ReadError>): Result<Bytes, ReadError> {
    match r
    case Ok(data) => Ok(data)
    case Err(Missing) => Err(TooShort)
    case Err(Deleted) => Err(Deleted)
    case Err(BadChecksum) => Err(BadChecksum)
  }
}

module PageSteps {
  import opened Base
  import opened Records
  import opened PageFormat
  import opened Pages
  import opened FileRuns
  import opened PageRefinement
  import Disk

  lemma OldPage(file: Bytes, pageSize: PageSize, pages: Disk.Pages, l: Loc, h: Header, payload: Bytes, added: Disk.Pages)
    requires PageIs(file, pageSize, pages, l) && l !in added
    ensures PageIs(file + AppendBytes(pageSize, h, payload), pageSize, pages + added, l)
  {
    AppendedPage(file, pageSize, l.off, pages[l].data, pages[l].crc, pages[l].deleted, AppendBytes(pageSize, h, payload));
  }

  lemma AddedPage(pages: Disk.Pages, at: Loc, slices: seq<Bytes>, id: ChunkId, crc: nat, seqNo: nat, i: nat)
    requires i < |slices|
    ensures var all := pages + Disk.ChunkPages(at, id, slices, crc, seqNo);
            var l := Loc(at.seg, at.off + i);
            l in all && all[l] == Disk.Page(id, slices[i], if i == 0 then crc else 0, seqNo, false)
  {
    assert Loc(at.seg, at.off + i) in Disk.Span(at, |slices|);
  }

  lemma NewPage(file: Bytes, pageSize: PageSize, pages: Disk.Pages, seg: nat, n: nat, slices: seq<Bytes>, id: ChunkId,
                crc: Uint32, seqNo: nat, i: nat)
    requires PagesHold(file, pageSize, n, slices, crc, {}) && i < |slices|
    ensures PageIs(file, pageSize, pages + Disk.ChunkPages(Loc(seg, n), id, slices, crc, seqNo), Loc(seg, n + i))
  {
    assert PageHolds(file, pageSize, PageAt(pageSize, n + i), slices[i], if i == 0 then crc else 0, n + i in {});
    AddedPage(pages, Loc(seg, n), slices, id, crc, seqNo, i);
  }

  lemma AppendedPageIs(file: Bytes, pageSize: PageSize, pages: Disk.Pages, seg: nat, count: nat,
                       h: Header, id: ChunkId, payload: Bytes, seqNo: nat, k: nat)
    requires Represents(file, pageSize, pages, seg, count) && !IsDeleted(h.flags)
    requires k < count + |Disk.Slices(payload, pageSize - HEADER)|
    ensures var added := Disk.ChunkPages(Loc(seg, count), id, Disk.Slices(payload, pageSize - HEADER), h.crc, seqNo);
            PageIs(file + AppendBytes(pageSize, h, payload), pageSize, pages + added, Loc(seg, k))
  {
    var slices := Disk.Slices(payload, pageSize - HEADER);
    if k < count {
      OldPage(file, pageSize, pages, Loc(seg, k), h, payload, Disk.ChunkPages(Loc(seg, count), id, slices, h.crc, seqNo));
    } else {
      AppendHolds(file, pageSize, count, h, payload);
      NewPage(file + AppendBytes(pageSize, h, payload), pageSize, pages, seg, count, slices, id, h.crc, seqNo, k - count);
    }
  }

  lemma AppendedPagesAre(file: Bytes, pageSize: PageSize, pages: Disk.Pages, seg: nat, count: nat,
                         h: Header, id: ChunkId, payload: Bytes, seqNo: nat)
    requires Represents(file, pageSize, pages, seg, count) && !IsDeleted(h.flags)
    ensures var slices := Disk.Slices(payload, pageSize - HEADER);
            var pages' := pages + Disk.ChunkPages(Loc(seg, count), id, slices, h.crc, seqNo);
            forall k :: 0 <= k < count + |slices| ==>
              PageIs(file + AppendBytes(pageSize, h, payload), pageSize, pages', Loc(seg, k))
  {
    forall k | 0 <= k < count + |Disk.Slices(payload, pageSize - HEADER)| {
      AppendedPageIs(file, pageSize, pages, seg, count, h, id, payload, seqNo, k);
    }
  }

  /** appendChunk on bytes is WriteChunk's pages on the map. */
  lemma AppendRefines(file: Bytes, pageSize: PageSize, pages: Disk.Pages, seg: nat, count: nat,
                      h: Header, id: ChunkId, payload: Bytes, seqNo: nat)
    requires Represents(file, pageSize, pages, seg, count) && !IsDeleted(h.flags)
    ensures var slices := Disk.Slices(payload, pageSize - HEADER);
            var pages' := pages + Disk.ChunkPages(Loc(seg, count), id, slices, h.crc, seqNo);
            Represents(file + AppendBytes(pageSize, h, payload), pageSize, pages', seg, count + |slices|)
  {
    var slices := Disk.Slices(payload, pageSize - HEADER);
    var file', pages' := file + AppendBytes(pageSize, h, payload),
                         pages + Disk.ChunkPages(Loc(seg, count), id, slices, h.crc, seqNo);
    AppendLength(file, pageSize, count, h, payload);
    AppendedPagesAre(file, pageSize, pages, seg, count, h, id, payload, seqNo);
    AllPages(file', pageSize, pages', seg, count + |slices|);
  }

  lemma AllPages(file: Bytes, pageSize: PageSize, pages: Disk.Pages, seg: nat, count: nat)
    requires |file| == PageAt(pageSize, count) && forall k :: 0 <= k < count ==> PageIs(file, pageSize, pages, Loc(seg, k))
    ensures Represents(file, pageSize, pages, seg, count)
  {
  }

  lemma AppendLength(file: Bytes, pageSize: PageSize, count: nat, h: Header, payload: Bytes)
    requires |file| == PageAt(pageSize, count)
    ensures |file + AppendBytes(pageSize, h, payload)|
            == PageAt(pageSize, count + |Disk.Slices(payload, pageSize - HEADER)|)
  {
    StepLength(file, pageSize, count, Append(h, payload));
  }

  /** Setting one bit of the file is flagging one page of the map. */
  lemma MarkRefines(file: Bytes, pageSize: PageSize, pages: Disk.Pages, seg: nat, count: nat, n: nat)
    requires Represents(file, pageSize, pages, seg, count) && n < count
    ensures Represents(Apply(file, pageSize, Mark(n)), pageSize, Disk.MarkDeleted(pages, Loc(seg, n)), seg, count)
  {
    StepLength(file, pageSize, count, Mark(n));
    forall k | 0 <= k < count
      ensures PageIs(Apply(file, pageSize, Mark(n)), pageSize, Disk.MarkDeleted(pages, Loc(seg, n)), Loc(seg, k))
    {
      assert PageIs(file, pageSize, pages, Loc(seg, k));
      var p := pages[Loc(seg, k)];
      MarkedPage(file, pageSize, k, p.data, p.crc, p.deleted, n);
      assert PageIs(file, pageSize, pages, Loc(seg, n));
    }
  }

  /** Patching headers is no step at all. */
  lemma PatchRefines(file: Bytes, pageSize: PageSize, pages: Disk.Pages, seg: nat, count: nat,
                     n: nat, blobId: Sha, total: Uint32, flags: Byte)
    requires Represents(file, pageSize, pages, seg, count) && !IsDeleted(flags)
    ensures Represents(Apply(file, pageSize, Patch(n, blobId, total, flags)), pageSize, pages, seg, count)
  {
    var op := Patch(n, blobId, total, flags);
    StepLength(file, pageSize, count, op);
    forall k | 0 <= k < count
      ensures PageIs(Apply(file, pageSize, op), pageSize, pages, Loc(seg, k))
    {
      assert PageIs(file, pageSize, pages, Loc(seg, k));
      var p := pages[Loc(seg, k)];
      StepPage(file, pageSize, k, p.data, p.crc, p.deleted, op);
    }
  }

  // ---- reading

  lemma PageReadsAs(file: Bytes, pageSize: PageSize, pages: Disk.Pages, l: Loc, i: nat, stale: nat -> Bytes)
    requires |stale(i)| == pageSize && PageIs(file, pageSize, pages, Loc(l.seg, l.off + i))
    ensures ReadsAs(ReaderOf(file, PageAt(pageSize, l.off), pageSize, stale), pages, l, i)
  {
    var p := pages[Loc(l.seg, l.off + i)];
    PageNumber(pageSize, l.off, i);
    ReadPageBack(file, PageAt(pageSize, l.off) + i * pageSize, stale(i), p.data, p.crc, p.deleted);
  }

  /** Reading page after page gives the same bytes, or the same refusal, on both levels. */
  lemma {:induction false} PagesReadAs(read: Reader, pages: Disk.Pages, l: Loc, i: nat, n: nat)
    requires i <= n && forall k: nat :: i <= k < n ==> ReadsAs(read, pages, l, k)
    ensures ReadPages(read, i, n) == Lift(Disk.ReadPages(pages, Loc(l.seg, l.off + i), n - i))
    decreases n - i
  {
    if i < n {
      PagesReadAs(read, pages, l, i + 1, n);
      assert ReadsAs(read, pages, l, i);
      assert l.off + i + 1 == l.off + (i + 1);
    }
  }

  lemma ChunkReadsAs(read: Reader, pages: Disk.Pages, entry: ChunkEntry, crc: Bytes -> Uint32, cfg: Disk.Config)
    requires forall k: nat :: k < Max(1, entry.pageCount) ==> ReadsAs(read, pages, entry.loc, k)
    requires forall b: Bytes :: cfg.crc(b) == crc(b)
    ensures ReadChunk(read, entry.pageCount, crc) == Lift(Disk.ReadChunk(cfg, pages, entry))
  {
    PagesReadAs(read, pages, entry.loc, 0, Max(1, entry.pageCount));
    assert ReadsAs(read, pages, entry.loc, 0);
    assert Loc(entry.loc.seg, entry.loc.off + 0) == entry.loc;
  }

  /** ReadChunk on the file is ReadChunk on the map. */
  lemma ReadRefines(file: Bytes, pageSize: PageSize, pages: Disk.Pages, count: nat, entry: ChunkEntry,
                    stale: nat -> Bytes, crc: Bytes -> Uint32, cfg: Disk.Config)
    requires Represents(file, pageSize, pages, entry.loc.seg, count) && entry.loc.off + Max(1, entry.pageCount) <= count
    requires forall i :: 0 <= i ==> |stale(i)| == pageSize
    requires forall b: Bytes :: cfg.crc(b) == crc(b)
    ensures ReadChunk(ReaderOf(file, PageAt(pageSize, entry.loc.off), pageSize, stale), entry.pageCount, crc)
            == Lift(Disk.ReadChunk(cfg, pages, entry))
  {
    var l := entry.loc;
    var read := ReaderOf(file, PageAt(pageSize, l.off), pageSize, stale);
    forall k: nat | k < Max(1, entry.pageCount)
      ensures ReadsAs(read, pages, l, k)
    {
      assert PageIs(file, pageSize, pages, Loc(l.seg, l.off + k));
      PageReadsAs(file, pageSize, pages, l, k, stale);
    }
    ChunkReadsAs(read, pages, entry, crc, cfg);
  }
}
