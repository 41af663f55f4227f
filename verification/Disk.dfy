/**
 Segment files as pages. A page is addressed by its segment and its position in
 it; PageRefinement.dfy proves that the bytes of a segment file hold exactly
 these pages.
 */
module Disk {
  import opened Base
  import opened Records

  /**
   One namespace's fixed surroundings: payload capacity of a page, the chunker
   as a split of the input into pieces, and the checksum, any function at all.
   */
  datatype Config = Config(ns: NsId, capacity: nat, split: Bytes -> seq<Bytes>, crc: Bytes -> nat)

  ghost predicate ValidConfig(cfg: Config) {
    && cfg.capacity >= 1
    && (forall b :: Flatten(cfg.split(b)) == b)
    && (forall b, i :: 0 <= i < |cfg.split(b)| ==> cfg.split(b)[i] != [])
  }

  datatype Page = Page(id: ChunkId, data: Bytes, crc: nat, seqNo: nat, deleted: bool)

  type Pages = map<Loc, Page>

  /** `ends` has every existing segment file with its number of pages. */
  datatype Disk = Disk(pages: Pages, ends: map<nat, nat>, active: Option<nat>, nextSeg: nat)

  const EMPTY_DISK := Disk(map[], map[], None, 1)

  /** How a payload is cut into page payloads; an empty one still takes a page. */
  function Slices(data: Bytes, capacity: nat): (r: seq<Bytes>)
    requires capacity >= 1
    ensures |r| >= 1
    decreases |data|
  {
    if |data| <= capacity then [data] else [data[..capacity]] + Slices(data[capacity..], capacity)
  }

  lemma {:induction false} SlicesJoin(data: Bytes, capacity: nat)
    requires capacity >= 1
    ensures Flatten(Slices(data, capacity)) == data
    ensures |Slices(data, capacity)| == 1 <==> |data| <= capacity
    decreases |data|
  {
    if |data| <= capacity {
      assert Flatten([data]) == data + Flatten<Byte>([]);
    } else {
      SlicesJoin(data[capacity..], capacity);
      assert Slices(data, capacity)[1..] == Slices(data[capacity..], capacity);
      assert data == data[..capacity] + data[capacity..];
    }
  }

  // ---- the allocator

  function NewSegment(d: Disk): Disk {
    d.(ends := d.ends[d.nextSeg := 0], active := Some(d.nextSeg), nextSeg := d.nextSeg + 1)
  }

  /** ensureActive, then rollIfNeeded; whether the active segment is full is left open. */
  function Prepare(d: Disk, roll: bool): (r: Disk)
    ensures r.active.Some?
  {
    var a := if d.active.None? then NewSegment(d) else d;
    if roll then NewSegment(a) else a
  }

  /** The `n` consecutive page positions from `loc` on. */
  function Span(loc: Loc, n: nat): (r: set<Loc>)
    ensures forall l :: l in r <==> l.seg == loc.seg && loc.off <= l.off < loc.off + n
  {
    if n == 0 then {} else Span(loc, n - 1) + {Loc(loc.seg, loc.off + n - 1)}
  }

  /** The pages of one chunk: only the first carries the checksum of the whole payload. */
  function ChunkPages(loc: Loc, id: ChunkId, slices: seq<Bytes>, crc: nat, seqNo: nat): Pages {
    map l | l in Span(loc, |slices|) ::
      Page(id, slices[l.off - loc.off], if l.off == loc.off then crc else 0, seqNo, false)
  }

  /** appendChunk on the active segment, and the record WriteBlob builds for it. */
  function WriteChunk(cfg: Config, d: Disk, data: Bytes, seqNo: nat, roll: bool): (Disk, ChunkEntry)
    requires cfg.capacity >= 1
  {
    var a := Prepare(d, roll);
    var seg := a.active.value;
    var loc := Loc(seg, if seg in a.ends then a.ends[seg] else 0);
    var slices := Slices(data, cfg.capacity);
    var id := Sha256(data);
    (a.(pages := a.pages + ChunkPages(loc, id, slices, cfg.crc(data), seqNo),
        ends := a.ends[seg := loc.off + |slices|]),
     ChunkEntry(id, cfg.ns, loc, |slices|, |data|, seqNo, 0, [], []))
  }

  /** WriteBlob's loop over the pieces the chunker yields; `rolls` says before which of them the segment rolls. */
  function WritePieces(cfg: Config, d: Disk, pieces: seq<Bytes>, rolls: seq<bool>): (Disk, seq<ChunkEntry>)
    requires cfg.capacity >= 1
    decreases |pieces|
  {
    if pieces == [] then
      (d, [])
    else
      var n := |pieces| - 1;
      var (d1, entries) := WritePieces(cfg, d, pieces[..n], rolls);
      var (d2, entry) := WriteChunk(cfg, d1, pieces[n], n, n < |rolls| && rolls[n]);
      (d2, entries + [entry])
  }

  // ---- reading and marking

  datatype ReadError = Missing | Deleted | BadChecksum

  function ReadPages(pages: Pages, loc: Loc, n: nat): Result<Bytes, ReadError>
    decreases n
  {
    if n == 0 then
      Ok([])
    else if loc !in pages then
      Err(Missing)
    else if pages[loc].deleted then
      Err(Deleted)
    else
      var rest := ReadPages(pages, Loc(loc.seg, loc.off + 1), n - 1);
      if rest.Err? then rest else Ok(pages[loc].data + rest.value)
  }

  function ReadChunk(cfg: Config, pages: Pages, entry: ChunkEntry): Result<Bytes, ReadError> {
    var data := ReadPages(pages, entry.loc, if entry.pageCount < 1 then 1 else entry.pageCount);
    if data.Ok? && cfg.crc(data.value) != pages[entry.loc].crc then Err(BadChecksum) else data
  }

  /** MarkDeleted sets the flag of one page, the first of the entry's span. */
  function MarkDeleted(pages: Pages, loc: Loc): Pages {
    if loc in pages then pages[loc := pages[loc].(deleted := true)] else pages
  }

  // ---- what a record promises about the pages it names

  /** The record's span holds the content of chunk `id`, page by page, and nothing in it is flagged. */
  predicate Holds(cfg: Config, pages: Pages, id: ChunkId, entry: ChunkEntry)
    requires cfg.capacity >= 1
  {
    var slices := Slices(id.content, cfg.capacity);
    && entry.chunkId == id
    && entry.length == |id.content|
    && entry.pageCount == |slices|
    && (forall l :: l in Span(entry.loc, |slices|) ==>
          && l in pages
          && pages[l].id == id
          && pages[l].data == slices[l.off - entry.loc.off]
          && !pages[l].deleted)
    && pages[entry.loc].crc == cfg.crc(id.content)
  }

  lemma {:induction false} ReadPagesJoins(pages: Pages, loc: Loc, slices: seq<Bytes>)
    requires forall l :: l in Span(loc, |slices|) ==>
      l in pages && !pages[l].deleted && pages[l].data == slices[l.off - loc.off]
    ensures ReadPages(pages, loc, |slices|) == Ok(Flatten(slices))
    decreases |slices|
  {
    if slices != [] {
      assert loc in Span(loc, |slices|);
      var next := Loc(loc.seg, loc.off + 1);
      forall l | l in Span(next, |slices| - 1)
        ensures l in pages && !pages[l].deleted && pages[l].data == slices[1..][l.off - next.off]
      {
        assert l in Span(loc, |slices|);
      }
      ReadPagesJoins(pages, next, slices[1..]);
    }
  }

  /** A chunk that a record holds reads back as exactly its content. */
  lemma HeldChunkReads(cfg: Config, pages: Pages, id: ChunkId, entry: ChunkEntry)
    requires cfg.capacity >= 1 && Holds(cfg, pages, id, entry)
    ensures ReadChunk(cfg, pages, entry) == Ok(id.content)
  {
    ReadPagesJoins(pages, entry.loc, Slices(id.content, cfg.capacity));
    SlicesJoin(id.content, cfg.capacity);
  }

  // ---- well-formed disks

  /** The position has been handed out, or its segment file is gone: it will not be handed out again. */
  predicate Used(d: Disk, l: Loc) {
    l.seg < d.nextSeg && (l.seg in d.ends ==> l.off < d.ends[l.seg])
  }

  predicate ValidDisk(d: Disk) {
    && d.nextSeg >= 1
    && (forall l :: l in d.pages ==> l.seg in d.ends && l.off < d.ends[l.seg])
    && (forall g :: g in d.ends ==> 1 <= g < d.nextSeg)
    && (d.nextSeg > 1 ==> d.nextSeg - 1 in d.ends)
    && (d.active.Some? ==> d.active.value in d.ends)
  }

  /** Pages and positions only ever get added by writing. */
  ghost predicate Extends(d: Disk, d': Disk) {
    && (forall l :: l in d.pages ==> l in d'.pages && d'.pages[l] == d.pages[l])
    && (forall l :: Used(d, l) ==> Used(d', l))
    && (forall l :: l in d'.pages && l !in d.pages ==> !Used(d, l))
  }

  lemma PrepareExtends(d: Disk, roll: bool)
    requires ValidDisk(d)
    ensures ValidDisk(Prepare(d, roll)) && Extends(d, Prepare(d, roll))
  {
  }

  /** The span of an entry was not used before and is now. */
  predicate FreshSpan(d: Disk, d': Disk, entry: ChunkEntry) {
    forall l :: l in Span(entry.loc, entry.pageCount) ==> !Used(d, l) && Used(d', l)
  }

  /** Pages put at the end of an existing segment. */
  lemma AppendExtends(a: Disk, seg: nat, n: nat, more: Pages)
    requires ValidDisk(a) && seg in a.ends
    requires more.Keys == Span(Loc(seg, a.ends[seg]), n)
    ensures var d' := a.(pages := a.pages + more, ends := a.ends[seg := a.ends[seg] + n]);
            && ValidDisk(d') && Extends(a, d')
            && (forall l :: l in more ==> !Used(a, l) && Used(d', l))
  {
  }

  lemma AddedPageIs(pages: Pages, loc: Loc, id: ChunkId, slices: seq<Bytes>, crc: nat, seqNo: nat, l: Loc)
    requires l in Span(loc, |slices|)
    ensures var all := pages + ChunkPages(loc, id, slices, crc, seqNo);
            l in all && all[l] == Page(id, slices[l.off - loc.off], if l.off == loc.off then crc else 0, seqNo, false)
  {
  }

  lemma ChunkPagesHold(cfg: Config, pages: Pages, loc: Loc, data: Bytes, seqNo: nat)
    requires cfg.capacity >= 1
    ensures var slices := Slices(data, cfg.capacity);
            var more := ChunkPages(loc, Sha256(data), slices, cfg.crc(data), seqNo);
            Holds(cfg, pages + more, Sha256(data), ChunkEntry(Sha256(data), cfg.ns, loc, |slices|, |data|, seqNo, 0, [], []))
  {
    var slices := Slices(data, cfg.capacity);
    assert loc in Span(loc, |slices|);
    forall l | l in Span(loc, |slices|) {
      AddedPageIs(pages, loc, Sha256(data), slices, cfg.crc(data), seqNo, l);
    }
  }

  /** Where the pages go, once the segment is there. */
  lemma WriteChunkAppends(cfg: Config, d: Disk, data: Bytes, seqNo: nat, roll: bool, a: Disk, seg: nat)
    requires cfg.capacity >= 1 && a == Prepare(d, roll) && seg == a.active.value && seg in a.ends
    ensures var slices := Slices(data, cfg.capacity);
            var more := ChunkPages(Loc(seg, a.ends[seg]), Sha256(data), slices, cfg.crc(data), seqNo);
            var (d', entry) := WriteChunk(cfg, d, data, seqNo, roll);
            && d' == a.(pages := a.pages + more, ends := a.ends[seg := a.ends[seg] + |slices|])
            && entry.loc == Loc(seg, a.ends[seg]) && entry.pageCount == |slices|
  {
  }

  /** Pages put behind the ones that are there: nothing moves, and the new positions were not used. */
  lemma AppendFresh(d: Disk, a: Disk, d': Disk, seg: nat, more: Pages, entry: ChunkEntry)
    requires ValidDisk(a) && Extends(d, a) && seg in a.ends
    requires entry.loc == Loc(seg, a.ends[seg]) && more.Keys == Span(entry.loc, entry.pageCount)
    requires d' == a.(pages := a.pages + more, ends := a.ends[seg := a.ends[seg] + entry.pageCount])
    ensures ValidDisk(d') && Extends(d, d')
    ensures forall l :: l in Span(entry.loc, entry.pageCount) ==> !Used(d, l) && Used(d', l)
  {
    AppendExtends(a, seg, entry.pageCount, more);
    ExtendsTransitive(d, a, d');
  }

  lemma WriteChunkExtends(cfg: Config, d: Disk, data: Bytes, seqNo: nat, roll: bool)
    requires cfg.capacity >= 1 && ValidDisk(d)
    ensures var (d', entry) := WriteChunk(cfg, d, data, seqNo, roll);
            ValidDisk(d') && Extends(d, d') && FreshSpan(d, d', entry)
  {
    PrepareExtends(d, roll);
    var a := Prepare(d, roll);
    var seg := a.active.value;
    WriteChunkAppends(cfg, d, data, seqNo, roll, a, seg);
    var (d', entry) := WriteChunk(cfg, d, data, seqNo, roll);
    var more := ChunkPages(entry.loc, Sha256(data), Slices(data, cfg.capacity), cfg.crc(data), seqNo);
    AppendFresh(d, a, d', seg, more, entry);
  }

  /** A written chunk is held by its record, on positions never used before. */
  lemma WriteChunkHolds(cfg: Config, d: Disk, data: Bytes, seqNo: nat, roll: bool)
    requires cfg.capacity >= 1 && ValidDisk(d)
    ensures var (d', entry) := WriteChunk(cfg, d, data, seqNo, roll);
            && ValidDisk(d') && Extends(d, d') && FreshSpan(d, d', entry)
            && Holds(cfg, d'.pages, Sha256(data), entry)
  {
    WriteChunkExtends(cfg, d, data, seqNo, roll);
    var a := Prepare(d, roll);
    var seg := a.active.value;
    ChunkPagesHold(cfg, a.pages, Loc(seg, if seg in a.ends then a.ends[seg] else 0), data, seqNo);
  }

  lemma ExtendsTransitive(d0: Disk, d1: Disk, d2: Disk)
    requires Extends(d0, d1) && Extends(d1, d2)
    ensures Extends(d0, d2)
  {
  }

  /** What WriteBlob leaves: each entry held, all spans fresh and pairwise disjoint. */
  ghost predicate Written(cfg: Config, d: Disk, d': Disk, pieces: seq<Bytes>, entries: seq<ChunkEntry>)
    requires cfg.capacity >= 1
  {
    && ValidDisk(d') && Extends(d, d')
    && |entries| == |pieces|
    && (forall i :: 0 <= i < |entries| ==> entries[i].ns == cfg.ns && FreshSpan(d, d', entries[i]))
    && (forall i :: 0 <= i < |entries| ==> Holds(cfg, d'.pages, Sha256(pieces[i]), entries[i]))
    && (forall i, j :: 0 <= i < j < |entries| ==> Apart(entries[i], entries[j]))
  }

  predicate Apart(e: ChunkEntry, f: ChunkEntry) {
    Span(e.loc, e.pageCount) !! Span(f.loc, f.pageCount)
  }

  lemma HoldsExtends(cfg: Config, d: Disk, d': Disk, id: ChunkId, entry: ChunkEntry)
    requires cfg.capacity >= 1 && Holds(cfg, d.pages, id, entry) && Extends(d, d')
    ensures Holds(cfg, d'.pages, id, entry)
  {
    assert entry.loc in Span(entry.loc, entry.pageCount);
  }

  lemma {:induction false} WritePiecesHolds(cfg: Config, d: Disk, pieces: seq<Bytes>, rolls: seq<bool>)
    requires cfg.capacity >= 1 && ValidDisk(d)
    ensures var (d', entries) := WritePieces(cfg, d, pieces, rolls); Written(cfg, d, d', pieces, entries)
    decreases |pieces|
  {
    if pieces != [] {
      var n := |pieces| - 1;
      WritePiecesHolds(cfg, d, pieces[..n], rolls);
      var w := WritePieces(cfg, d, pieces[..n], rolls);
      WriteOneMore(cfg, d, w.0, pieces, w.1, n < |rolls| && rolls[n]);
    }
  }

  lemma WriteOneMore(cfg: Config, d: Disk, d1: Disk, pieces: seq<Bytes>, entries: seq<ChunkEntry>, roll: bool)
    requires cfg.capacity >= 1 && pieces != [] && Written(cfg, d, d1, pieces[..|pieces| - 1], entries)
    ensures var n := |pieces| - 1;
            var (d2, entry) := WriteChunk(cfg, d1, pieces[n], n, roll);
            Written(cfg, d, d2, pieces, entries + [entry])
  {
    var n := |pieces| - 1;
    WriteChunkHolds(cfg, d1, pieces[n], n, roll);
    var (d2, entry) := WriteChunk(cfg, d1, pieces[n], n, roll);
    WrittenSnoc(cfg, d, d1, d2, pieces[..n], entries, pieces[n], entry);
    assert pieces == pieces[..n] + [pieces[n]];
  }

  lemma WrittenSnoc(cfg: Config, d: Disk, d1: Disk, d2: Disk, pieces: seq<Bytes>, entries: seq<ChunkEntry>,
                    piece: Bytes, entry: ChunkEntry)
    requires cfg.capacity >= 1 && Written(cfg, d, d1, pieces, entries)
    requires ValidDisk(d2) && Extends(d1, d2) && entry.ns == cfg.ns && FreshSpan(d1, d2, entry)
    requires Holds(cfg, d2.pages, Sha256(piece), entry)
    ensures Written(cfg, d, d2, pieces + [piece], entries + [entry])
  {
    ExtendsTransitive(d, d1, d2);
    var all, data := entries + [entry], pieces + [piece];
    forall i | 0 <= i < |all|
      ensures FreshSpan(d, d2, all[i])
      ensures Holds(cfg, d2.pages, Sha256(data[i]), all[i])
    {
      if i < |entries| {
        assert FreshSpan(d, d1, entries[i]);
        HoldsExtends(cfg, d1, d2, Sha256(pieces[i]), entries[i]);
      }
    }
    forall i, j | 0 <= i < j < |all|
      ensures Apart(all[i], all[j])
    {
      if j == |entries| {
        assert FreshSpan(d, d1, entries[i]);
      } else {
        assert Apart(entries[i], entries[j]);
      }
    }
  }
}
