/** A segment file over its life: appends, header patches and deletion marks in any order. */
module FileRuns {
  import opened Base
  import opened PageFormat
  import opened Pages
  import LE = LittleEndian
  import Disk

  /** Patches and marks name a page by its number; pages start at `PageAt(number)`. */
  datatype FileOp =
    | Append(header: Header, payload: Bytes)
    | Patch(page: nat, blobId: Sha, totalChunks: Uint32, flags: Byte)
    | Mark(page: nat)

  /** appendChunk and patchPage are never given the deleted flag. */
  predicate Benign(op: FileOp) {
    match op
    case Append(h, _) => !IsDeleted(h.flags)
    case Patch(_, _, _, flags) => !IsDeleted(flags)
    case Mark(_) => true
  }

  predicate HasPage(file: Bytes, pageSize: PageSize, n: nat) {
    PageAt(pageSize, n) + HEADER <= |file|
  }

  function AppendBytes(pageSize: PageSize, h: Header, payload: Bytes): Bytes {
    SlicesFit(payload, pageSize - HEADER);
    ChunkBytes(h, Disk.Slices(payload, pageSize - HEADER), pageSize)
  }

  /** A patch or mark of a page the file does not have fails and changes nothing. */
  function Apply(file: Bytes, pageSize: PageSize, op: FileOp): Bytes {
    match op
    case Append(h, payload) => file + AppendBytes(pageSize, h, payload)
    case Patch(n, blobId, total, flags) =>
      if HasPage(file, pageSize, n) then PatchPage(file, PageAt(pageSize, n), blobId, total, flags).0 else file
    case Mark(n) =>
      match MarkDeleted(file, PageAt(pageSize, n))
      case None => file
      case Some(marked) => marked
  }

  function Run(file: Bytes, pageSize: PageSize, ops: seq<FileOp>): Bytes
    decreases |ops|
  {
    if ops == [] then file else Run(Apply(file, pageSize, ops[0]), pageSize, ops[1..])
  }

  function Marks(ops: seq<FileOp>): set<nat> {
    set op | op in ops && op.Mark? :: op.page
  }

  // ---- one page under one operation

  lemma PagesApart(pageSize: PageSize, m: nat, n: nat)
    ensures m < n ==> PageAt(pageSize, m) + pageSize <= PageAt(pageSize, n)
  {
    if m < n {
      assert (n - m - 1) * pageSize >= 0;
    }
  }

  lemma OwnPageFlags(file: Bytes, pageSize: PageSize, at: nat, slice: Bytes, crc: Uint32, deleted: bool, flags: Byte)
    requires PageHolds(file, pageSize, at, slice, crc, deleted)
    ensures PatchFlags(file, at, flags).1
    ensures PageHolds(PatchFlags(file, at, flags).0, pageSize, at, slice, crc, deleted || IsDeleted(flags))
  {
    var existing := DecodeMagic(file[at + 84..at + 88]).value;
    SetKeepsDeleted(existing, flags);
    MagicWriteHolds(file, pageSize, at, slice, crc, deleted, SetFlags(existing, flags));
  }

  lemma PatchedOwnPage(file: Bytes, pageSize: PageSize, at: nat, slice: Bytes, crc: Uint32, deleted: bool,
                       blobId: Sha, total: Uint32, flags: Byte)
    requires PageHolds(file, pageSize, at, slice, crc, deleted) && !IsDeleted(flags)
    ensures PageHolds(PatchPage(file, at, blobId, total, flags).0, pageSize, at, slice, crc, deleted)
  {
    var w0 := WriteAt(file, at + 76, LE.Put(total, 4));
    var w := WriteAt(w0, at + 40, blobId);
    FieldWriteHolds(file, pageSize, at, slice, crc, deleted, at + 76, LE.Put(total, 4));
    FieldWriteHolds(w0, pageSize, at, slice, crc, deleted, at + 40, blobId);
    OwnPageFlags(w, pageSize, at, slice, crc, deleted, flags);
  }

  lemma PatchedOtherPage(file: Bytes, pageSize: PageSize, at: nat, slice: Bytes, crc: Uint32, deleted: bool,
                         to: nat, blobId: Sha, total: Uint32, flags: Byte)
    requires PageHolds(file, pageSize, at, slice, crc, deleted)
    requires to + HEADER <= |file| && (to + pageSize <= at || at + pageSize <= to)
    ensures PageHolds(PatchPage(file, to, blobId, total, flags).0, pageSize, at, slice, crc, deleted)
  {
    var w0 := WriteAt(file, to + 76, LE.Put(total, 4));
    var w := WriteAt(w0, to + 40, blobId);
    OtherPageHolds(file, pageSize, at, slice, crc, deleted, to + 76, LE.Put(total, 4));
    OtherPageHolds(w0, pageSize, at, slice, crc, deleted, to + 40, blobId);
    assert PatchPage(file, to, blobId, total, flags) == PatchFlags(w, to, flags);
    OtherPageFlags(w, pageSize, at, slice, crc, deleted, to, flags);
  }

  lemma OtherPageFlags(file: Bytes, pageSize: PageSize, at: nat, slice: Bytes, crc: Uint32, deleted: bool,
                       to: nat, flags: Byte)
    requires PageHolds(file, pageSize, at, slice, crc, deleted)
    requires to + HEADER <= |file| && (to + pageSize <= at || at + pageSize <= to)
    ensures PageHolds(PatchFlags(file, to, flags).0, pageSize, at, slice, crc, deleted)
  {
    match DecodeMagic(file[to + 84..to + 88])
    case None =>
    case Some(existing) =>
      OtherPageHolds(file, pageSize, at, slice, crc, deleted, to + 84, EncodeMagic(SetFlags(existing, flags)));
  }

  /** What page `k` holds survives a patch of any page, its own included. */
  lemma PatchedPage(file: Bytes, pageSize: PageSize, k: nat, slice: Bytes, crc: Uint32, deleted: bool,
                    n: nat, blobId: Sha, total: Uint32, flags: Byte)
    requires PageHolds(file, pageSize, PageAt(pageSize, k), slice, crc, deleted)
    requires HasPage(file, pageSize, n) && !IsDeleted(flags)
    ensures PageHolds(PatchPage(file, PageAt(pageSize, n), blobId, total, flags).0, pageSize, PageAt(pageSize, k),
                      slice, crc, deleted)
  {
    if k == n {
      PatchedOwnPage(file, pageSize, PageAt(pageSize, k), slice, crc, deleted, blobId, total, flags);
    } else {
      PagesApart(pageSize, k, n);
      PagesApart(pageSize, n, k);
      PatchedOtherPage(file, pageSize, PageAt(pageSize, k), slice, crc, deleted, PageAt(pageSize, n), blobId, total, flags);
    }
  }

  /** Marking page `n` flags page `k` exactly if they are the same page. */
  lemma MarkedPage(file: Bytes, pageSize: PageSize, k: nat, slice: Bytes, crc: Uint32, deleted: bool, n: nat)
    requires PageHolds(file, pageSize, PageAt(pageSize, k), slice, crc, deleted)
    ensures PageHolds(Apply(file, pageSize, Mark(n)), pageSize, PageAt(pageSize, k), slice, crc, deleted || k == n)
  {
    var at, to := PageAt(pageSize, k), PageAt(pageSize, n);
    if k == n {
      OwnPageFlags(file, pageSize, at, slice, crc, deleted, FLAG_DELETED);
    } else if HasPage(file, pageSize, n) {
      PagesApart(pageSize, k, n);
      PagesApart(pageSize, n, k);
      OtherPageFlags(file, pageSize, at, slice, crc, deleted, to, FLAG_DELETED);
    }
  }

  lemma AppendedPage(file: Bytes, pageSize: PageSize, k: nat, slice: Bytes, crc: Uint32, deleted: bool, more: Bytes)
    requires PageHolds(file, pageSize, PageAt(pageSize, k), slice, crc, deleted)
    ensures PageHolds(file + more, pageSize, PageAt(pageSize, k), slice, crc, deleted)
  {
    var at := PageAt(pageSize, k);
    AtPrefix(file, more, at, LE.Put(|slice|, 8));
    AtPrefix(file, more, at + 80, LE.Put(crc, 4));
    AtPrefix(file, more, at + HEADER, slice);
    assert (file + more)[at + 84..at + 88] == file[at + 84..at + 88];
  }

  function NowDead(op: FileOp): set<nat> {
    if op.Mark? then {op.page} else {}
  }

  lemma StepPage(file: Bytes, pageSize: PageSize, k: nat, slice: Bytes, crc: Uint32, deleted: bool, op: FileOp)
    requires PageHolds(file, pageSize, PageAt(pageSize, k), slice, crc, deleted) && Benign(op)
    ensures PageHolds(Apply(file, pageSize, op), pageSize, PageAt(pageSize, k), slice, crc, deleted || k in NowDead(op))
  {
    match op
    case Append(h, payload) =>
      AppendedPage(file, pageSize, k, slice, crc, deleted, AppendBytes(pageSize, h, payload));
    case Patch(n, blobId, total, flags) =>
      if HasPage(file, pageSize, n) {
        PatchedPage(file, pageSize, k, slice, crc, deleted, n, blobId, total, flags);
      }
    case Mark(n) =>
      MarkedPage(file, pageSize, k, slice, crc, deleted, n);
  }

  // ---- runs

  lemma StepPages(file: Bytes, pageSize: PageSize, n: nat, slices: seq<Bytes>, crc: Uint32, dead: set<nat>, op: FileOp)
    requires PagesHold(file, pageSize, n, slices, crc, dead) && Benign(op)
    ensures PagesHold(Apply(file, pageSize, op), pageSize, n, slices, crc, dead + NowDead(op))
  {
    forall i | 0 <= i < |slices|
      ensures PageHolds(Apply(file, pageSize, op), pageSize, PageAt(pageSize, n + i), slices[i],
                        if i == 0 then crc else 0, n + i in dead + NowDead(op))
    {
      StepPage(file, pageSize, n + i, slices[i], if i == 0 then crc else 0, n + i in dead, op);
    }
  }

  lemma {:induction false} RunPages(file: Bytes, pageSize: PageSize, n: nat, slices: seq<Bytes>, crc: Uint32,
                                    dead: set<nat>, ops: seq<FileOp>)
    requires PagesHold(file, pageSize, n, slices, crc, dead) && forall op :: op in ops ==> Benign(op)
    ensures PagesHold(Run(file, pageSize, ops), pageSize, n, slices, crc, dead + Marks(ops))
    decreases |ops|
  {
    if ops == [] {
      assert dead + Marks(ops) == dead;
    } else {
      StepPages(file, pageSize, n, slices, crc, dead, ops[0]);
      RunPages(Apply(file, pageSize, ops[0]), pageSize, n, slices, crc, dead + NowDead(ops[0]), ops[1..]);
      MarksSplit(ops);
      assert dead + NowDead(ops[0]) + Marks(ops[1..]) == dead + Marks(ops);
    }
  }

  lemma MarksSplit(ops: seq<FileOp>)
    requires ops != []
    ensures Marks(ops) == NowDead(ops[0]) + Marks(ops[1..])
  {
    assert ops == [ops[0]] + ops[1..];
  }

  /**
   A chunk of any length, appended behind `n` pages and followed by any run of other
   appends, patches and marks, reads back as its payload until one of its own pages
   is marked, and as deleted from then on.
   */
  lemma AppendedChunkReads(file: Bytes, pageSize: PageSize, n: nat, h: Header, payload: Bytes, ops: seq<FileOp>,
                           stale: nat -> Bytes, crc: Bytes -> Uint32)
    requires |file| == PageAt(pageSize, n) && !IsDeleted(h.flags) && h.crc == crc(payload)
    requires forall op :: op in ops ==> Benign(op)
    requires forall i :: 0 <= i ==> |stale(i)| == pageSize
    ensures var pages := |Disk.Slices(payload, pageSize - HEADER)|;
            var end := Run(Apply(file, pageSize, Append(h, payload)), pageSize, ops);
            ReadChunk(ReaderOf(end, PageAt(pageSize, n), pageSize, stale), pages, crc)
            == if exists m :: m in Marks(ops) && n <= m < n + pages then Err(Deleted) else Ok(payload)
  {
    var slices := Disk.Slices(payload, pageSize - HEADER);
    AppendHolds(file, pageSize, n, h, payload);
    var appended := Apply(file, pageSize, Append(h, payload));
    RunPages(appended, pageSize, n, slices, h.crc, {}, ops);
    assert {} + Marks(ops) == Marks(ops);
    ReadChunkBack(Run(appended, pageSize, ops), pageSize, n, payload, stale, crc, Marks(ops));
  }

  lemma CopiedPage(file: Bytes, target: Bytes, pageSize: PageSize, at: nat, slice: Bytes, crc: Uint32, deleted: bool)
    requires PageHolds(file, pageSize, at, slice, crc, deleted)
    ensures PageHolds(target + file[at..at + pageSize], pageSize, |target|, slice, crc, deleted)
  {
    var page := file[at..at + pageSize];
    SubRange(file, at, pageSize, 0, 8);
    SubRange(file, at, pageSize, 80, 84);
    SubRange(file, at, pageSize, 84, 88);
    SubRange(file, at, pageSize, HEADER, HEADER + |slice|);
    PageMoves(page, target, [], pageSize, slice, crc, deleted);
    assert target + page + [] == target + page;
  }

  /** A verbatim copy of a chunk's page to page number `m` of another file reads as the original does. */
  lemma CopiedChunkReads(file: Bytes, target: Bytes, pageSize: PageSize, n: nat, m: nat, payload: Bytes,
                         stale: nat -> Bytes, crc: Bytes -> Uint32, deleted: bool)
    requires |payload| <= pageSize - HEADER && |target| == PageAt(pageSize, m)
    requires PageHolds(file, pageSize, PageAt(pageSize, n), payload, crc(payload), deleted)
    requires forall i :: 0 <= i ==> |stale(i)| == pageSize
    ensures PageAt(pageSize, n) + pageSize <= |file|
    ensures var copy := target + file[PageAt(pageSize, n)..PageAt(pageSize, n) + pageSize];
            ReadChunk(ReaderOf(copy, PageAt(pageSize, m), pageSize, stale), 1, crc)
            == if deleted then Err(Deleted) else Ok(payload)
  {
    CopiedPage(file, target, pageSize, PageAt(pageSize, n), payload, crc(payload), deleted);
    OnePageReads(target + file[PageAt(pageSize, n)..PageAt(pageSize, n) + pageSize], pageSize, m, payload, stale, crc,
                 if deleted then {m} else {});
  }

  lemma OnePageReads(file: Bytes, pageSize: PageSize, n: nat, payload: Bytes, stale: nat -> Bytes,
                     crc: Bytes -> Uint32, dead: set<nat>)
    requires |payload| <= pageSize - HEADER && dead <= {n}
    requires PageHolds(file, pageSize, PageAt(pageSize, n), payload, crc(payload), n in dead)
    requires forall i :: 0 <= i ==> |stale(i)| == pageSize
    ensures ReadChunk(ReaderOf(file, PageAt(pageSize, n), pageSize, stale), 1, crc)
            == if n in dead then Err(Deleted) else Ok(payload)
  {
    assert Disk.Slices(payload, pageSize - HEADER) == [payload];
    assert PagesHold(file, pageSize, n, [payload], crc(payload), dead);
    ReadChunkBack(file, pageSize, n, payload, stale, crc, dead);
  }

  // ---- the scan visits every page

  function PagesAdded(pageSize: PageSize, op: FileOp): nat {
    if op.Append? then |Disk.Slices(op.payload, pageSize - HEADER)| else 0
  }

  lemma StepPaged(file: Bytes, pageSize: PageSize, count: nat, op: FileOp)
    requires Paged(file, pageSize, count) && Benign(op)
    ensures Paged(Apply(file, pageSize, op), pageSize, count + PagesAdded(pageSize, op))
  {
    var file' := Apply(file, pageSize, op);
    StepLength(file, pageSize, count, op);
    forall k | 0 <= k < count
      ensures HoldsSomething(file', pageSize, k)
    {
      assert HoldsSomething(file, pageSize, k);
      var slice: Bytes, crc: Uint32, deleted: bool :|
        PageHolds(file, pageSize, PageAt(pageSize, k), slice, crc, deleted);
      StepPage(file, pageSize, k, slice, crc, deleted, op);
    }
    if op.Append? {
      AppendedPagesHold(file, pageSize, count, op.header, op.payload);
    }
  }

  lemma AppendedPagesHold(file: Bytes, pageSize: PageSize, count: nat, h: Header, payload: Bytes)
    requires |file| == PageAt(pageSize, count) && !IsDeleted(h.flags)
    ensures forall k :: count <= k < count + |Disk.Slices(payload, pageSize - HEADER)| ==>
              HoldsSomething(file + AppendBytes(pageSize, h, payload), pageSize, k)
  {
    AppendHolds(file, pageSize, count, h, payload);
    var slices := Disk.Slices(payload, pageSize - HEADER);
    forall k | count <= k < count + |slices|
      ensures HoldsSomething(file + AppendBytes(pageSize, h, payload), pageSize, k)
    {
      PagesHoldSomething(file + AppendBytes(pageSize, h, payload), pageSize, count, slices, h.crc, {}, k - count);
    }
  }

  /** What appendChunk leaves behind the pages of a file. */
  lemma AppendHolds(file: Bytes, pageSize: PageSize, count: nat, h: Header, payload: Bytes)
    requires |file| == PageAt(pageSize, count) && !IsDeleted(h.flags)
    ensures PagesHold(file + AppendBytes(pageSize, h, payload), pageSize, count,
                      Disk.Slices(payload, pageSize - HEADER), h.crc, {})
  {
    var file' := file + AppendBytes(pageSize, h, payload);
    SlicesFit(payload, pageSize - HEADER);
    ChunkBytesHold(file, h, Disk.Slices(payload, pageSize - HEADER), pageSize, count, [], {});
    assert file' + [] == file';
  }

  lemma PagesHoldSomething(file: Bytes, pageSize: PageSize, n: nat, slices: seq<Bytes>, crc: Uint32, dead: set<nat>, i: nat)
    requires i < |slices| && PagesHold(file, pageSize, n, slices, crc, dead)
    ensures HoldsSomething(file, pageSize, n + i)
  {
    assert PageHolds(file, pageSize, PageAt(pageSize, n + i), slices[i], if i == 0 then crc else 0, n + i in dead);
  }

  lemma StepLength(file: Bytes, pageSize: PageSize, count: nat, op: FileOp)
    requires |file| == PageAt(pageSize, count)
    ensures |Apply(file, pageSize, op)| == PageAt(pageSize, count + PagesAdded(pageSize, op))
  {
    if op.Append? {
      var slices := Disk.Slices(op.payload, pageSize - HEADER);
      SlicesFit(op.payload, pageSize - HEADER);
      ChunkBytesLength(op.header, slices, pageSize);
      PageNumber(pageSize, count, |slices|);
    }
  }

  lemma OneQuotient(n: nat, d: nat)
    requires 1 <= n <= d
    ensures (n + d - 1) / d == 1
  {
  }

  /** The header of a held page decodes, and says how long the slice is. */
  lemma HeaderOfPage(file: Bytes, pageSize: PageSize, at: nat, slice: Bytes, crc: Uint32, deleted: bool)
    requires pageSize < 0x1_0000_0000 && PageHolds(file, pageSize, at, slice, crc, deleted)
    ensures var h := DecodeHeader(file[at..at + HEADER]); h.Ok? && h.value.dataLen == |slice|
  {
    SubRange(file, at, HEADER, 84, 88);
    SubRange(file, at, HEADER, 0, 8);
    LE.Pow256Values();
    LE.GetPut(|slice|, 8);
  }

  lemma ScanAtPage(file: Bytes, pageSize: PageSize, k: nat)
    requires pageSize < 0x1_0000_0000 && HoldsSomething(file, pageSize, k)
    ensures var s := ScanAt(file, pageSize, PageAt(pageSize, k)); s.Some? && s.value.next == PageAt(pageSize, k + 1)
  {
    var at := PageAt(pageSize, k);
    var slice: Bytes, crc: Uint32, deleted: bool :| PageHolds(file, pageSize, at, slice, crc, deleted);
    HeaderOfPage(file, pageSize, at, slice, crc, deleted);
    if slice != [] {
      OneQuotient(|slice|, pageSize - HEADER);
    }
    PageAtNext(pageSize, k);
  }

  /** Pages `from` to `count`, each with the header its bytes decode to. */
  function PageHeaders(step: nat -> Option<ScanStep>, pageSize: PageSize, from: nat, count: nat): (r: seq<(nat, Header)>)
    requires from <= count && forall k :: from <= k < count ==> step(PageAt(pageSize, k)).Some?
    ensures |r| == count - from
    decreases count - from
  {
    if from == count then []
    else [(PageAt(pageSize, from), step(PageAt(pageSize, from)).value.header)]
         + PageHeaders(step, pageSize, from + 1, count)
  }

  lemma PageSteps(file: Bytes, pageSize: PageSize, count: nat, k: nat)
    requires pageSize < 0x1_0000_0000 && Paged(file, pageSize, count) && k < count
    ensures var s := ScanOf(file, pageSize)(PageAt(pageSize, k)); s.Some? && s.value.next == PageAt(pageSize, k + 1)
  {
    assert HoldsSomething(file, pageSize, k);
    ScanAtPage(file, pageSize, k);
  }

  lemma {:induction false} ScanVisits(step: nat -> Option<ScanStep>, size: nat, pageSize: PageSize, from: nat, count: nat)
    requires Forward(step, size) && from <= count && step(PageAt(pageSize, count)).None?
    requires forall k :: from <= k < count ==>
               step(PageAt(pageSize, k)).Some? && step(PageAt(pageSize, k)).value.next == PageAt(pageSize, k + 1)
    ensures Scan(step, size, PageAt(pageSize, from)) == PageHeaders(step, pageSize, from, count)
    decreases count - from
  {
    if from < count {
      ScanVisits(step, size, pageSize, from + 1, count);
    }
  }

  lemma ScanBounds(file: Bytes, pageSize: PageSize)
    requires pageSize < 0x1_0000_0000
    ensures PageAt(pageSize, 0) == SEG_HEADER && ScanOf(file, pageSize)(|file|).None?
  {
  }

  /** Each stored length fits its page, so the scan steps one page at a time and yields every page, in order. */
  lemma ScanVisitsEveryPage(file: Bytes, pageSize: PageSize, count: nat)
    requires pageSize < 0x1_0000_0000 && Paged(file, pageSize, count)
    ensures var step := ScanOf(file, pageSize);
            && (forall k :: 0 <= k < count ==> step(PageAt(pageSize, k)).Some?)
            && Scan(step, |file|, SEG_HEADER) == PageHeaders(step, pageSize, 0, count)
  {
    var step := ScanOf(file, pageSize);
    forall k | 0 <= k < count
      ensures step(PageAt(pageSize, k)).Some? && step(PageAt(pageSize, k)).value.next == PageAt(pageSize, k + 1)
    {
      PageSteps(file, pageSize, count, k);
    }
    ScanBounds(file, pageSize);
    ScanVisits(step, |file|, pageSize, 0, count);
  }

  function TotalPages(pageSize: PageSize, ops: seq<FileOp>): nat {
    if ops == [] then 0 else PagesAdded(pageSize, ops[0]) + TotalPages(pageSize, ops[1..])
  }

  lemma {:induction false} RunPaged(file: Bytes, pageSize: PageSize, count: nat, ops: seq<FileOp>)
    requires Paged(file, pageSize, count) && forall op :: op in ops ==> Benign(op)
    ensures Paged(Run(file, pageSize, ops), pageSize, count + TotalPages(pageSize, ops))
    decreases |ops|
  {
    if ops != [] {
      StepPaged(file, pageSize, count, ops[0]);
      RunPaged(Apply(file, pageSize, ops[0]), pageSize, count + PagesAdded(pageSize, ops[0]), ops[1..]);
    }
  }

  /** Whatever a segment file went through since its header was written, the scan misses no page of it. */
  lemma RunScanned(header: Bytes, pageSize: PageSize, ops: seq<FileOp>)
    requires |header| == SEG_HEADER && pageSize < 0x1_0000_0000 && forall op :: op in ops ==> Benign(op)
    ensures var file := Run(header, pageSize, ops);
            var step := ScanOf(file, pageSize);
            var count := TotalPages(pageSize, ops);
            && (forall k :: 0 <= k < count ==> step(PageAt(pageSize, k)).Some?)
            && Scan(step, |file|, SEG_HEADER) == PageHeaders(step, pageSize, 0, count)
  {
    RunPaged(header, pageSize, 0, ops);
    ScanVisitsEveryPage(Run(header, pageSize, ops), pageSize, TotalPages(pageSize, ops));
  }
}
