/**
 What phase 1 does when nothing runs beside it, and why one pass clears the
 dead counters: the pages it reaps carry at least the bytes of every dead chunk.
 */
module SweepLedger {
  import opened Base
  import opened Records
  import opened Disk
  import opened IndexSpec
  import opened DoubleEntry
  import opened Ledger
  import opened StoreInvariant

  /** No record, or one nobody references. */
  predicate DeadId(chunks: ChunkTable, id: ChunkId) {
    id !in chunks || chunks[id].refCount <= 0
  }

  predicate Reapable(chunks: ChunkTable, page: Page) {
    !page.deleted && DeadId(chunks, page.id)
  }

  function SweptPages(pages: Pages, chunks: ChunkTable): Pages {
    map l | l in pages :: pages[l].(deleted := pages[l].deleted || DeadId(chunks, pages[l].id))
  }

  function LiveRecords(chunks: ChunkTable): ChunkTable {
    map c | c in chunks && chunks[c].refCount > 0 :: chunks[c]
  }

  function ReapedBytes(chunks: ChunkTable): Page -> int {
    (page: Page) => if Reapable(chunks, page) then |page.data| else 0
  }

  function ReapedOne(chunks: ChunkTable): Page -> int {
    (page: Page) => if Reapable(chunks, page) then 1 else 0
  }

  /** What phase 1 subtracts from the dead counters. */
  ghost function FreedBytes(pages: Pages, chunks: ChunkTable): int {
    MapSum(pages, ReapedBytes(chunks))
  }

  ghost function FreedPages(pages: Pages, chunks: ChunkTable): int {
    MapSum(pages, ReapedOne(chunks))
  }

  function OfChunk(pages: Pages, c: ChunkId): Pages {
    map l | l in pages && pages[l].id == c :: pages[l]
  }

  function OfChunks(pages: Pages, ids: set<ChunkId>): Pages {
    map l | l in pages && pages[l].id in ids :: pages[l]
  }

  function SpanPages(pages: Pages, loc: Loc, n: nat): Pages
    requires forall l :: l in Span(loc, n) ==> l in pages
  {
    map l | l in Span(loc, n) :: pages[l]
  }

  lemma SpanPagesTail(pages: Pages, loc: Loc, n: nat)
    requires n >= 1 && forall l :: l in Span(loc, n) ==> l in pages
    ensures var next := Loc(loc.seg, loc.off + 1);
            && (forall l :: l in Span(next, n - 1) <==> l in Span(loc, n) && l != loc)
            && SpanPages(pages, loc, n) - {loc} == SpanPages(pages, next, n - 1)
  {
    var next := Loc(loc.seg, loc.off + 1);
    assert forall l :: l in Span(next, n - 1) <==> l in Span(loc, n) && l != loc;
  }

  /** The payloads along a span add up to the content cut into it. */
  lemma {:induction false} SpanSum(pages: Pages, chunks: ChunkTable, loc: Loc, slices: seq<Bytes>)
    requires forall l :: l in Span(loc, |slices|) ==>
      l in pages && Reapable(chunks, pages[l]) && pages[l].data == slices[l.off - loc.off]
    ensures MapSum(SpanPages(pages, loc, |slices|), ReapedBytes(chunks)) == |Flatten(slices)|
    ensures MapSum(SpanPages(pages, loc, |slices|), ReapedOne(chunks)) == |slices|
    decreases |slices|
  {
    if slices != [] {
      var next := Loc(loc.seg, loc.off + 1);
      var all := SpanPages(pages, loc, |slices|);
      SpanPagesTail(pages, loc, |slices|);
      assert loc in Span(loc, |slices|);
      SpanSum(pages, chunks, next, slices[1..]);
      MapSumSplit(all, loc, ReapedBytes(chunks));
      MapSumSplit(all, loc, ReapedOne(chunks));
    }
  }

  /** A sub-map's sum of non-negative terms is at most the whole. */
  lemma SubSum(pages: Pages, part: Pages, w: Page -> int)
    requires forall l :: l in part ==> l in pages && part[l] == pages[l]
    requires forall page :: w(page) >= 0
    ensures 0 <= MapSum(part, w) <= MapSum(pages, w)
  {
    var rest := pages - part.Keys;
    assert pages == part + rest;
    MapSumUnion(part, rest, w);
    MapSumTerm(part, w);
    MapSumTerm(rest, w);
  }

  /** The reapable pages of a dead chunk carry all its bytes. */
  lemma DeadChunkPages(cfg: Config, pages: Pages, chunks: ChunkTable, c: ChunkId)
    requires cfg.capacity >= 1 && RecordsHold(cfg, pages, chunks) && c in chunks && chunks[c].refCount >= 0
    ensures MapSum(OfChunk(pages, c), ReapedBytes(chunks)) >= DeadLength()(chunks[c])
    ensures MapSum(OfChunk(pages, c), ReapedOne(chunks)) >= DeadOne()(chunks[c])
  {
    var mine := OfChunk(pages, c);
    SubSum(mine, map[], ReapedBytes(chunks));
    SubSum(mine, map[], ReapedOne(chunks));
    if chunks[c].refCount == 0 {
      assert Holds(cfg, pages, c, chunks[c]);
      DeadSpan(cfg, pages, chunks, c);
      var span := SpanPages(pages, chunks[c].loc, chunks[c].pageCount);
      SubSum(mine, span, ReapedBytes(chunks));
      SubSum(mine, span, ReapedOne(chunks));
    }
  }

  /** The span of a dead record: its pages are reapable, belong to the chunk, and carry its bytes. */
  lemma DeadSpan(cfg: Config, pages: Pages, chunks: ChunkTable, c: ChunkId)
    requires cfg.capacity >= 1 && c in chunks && Holds(cfg, pages, c, chunks[c]) && chunks[c].refCount == 0
    ensures forall l :: l in Span(chunks[c].loc, chunks[c].pageCount) ==> l in pages && pages[l].id == c
    ensures var span := SpanPages(pages, chunks[c].loc, chunks[c].pageCount);
            && MapSum(span, ReapedBytes(chunks)) == chunks[c].length
            && MapSum(span, ReapedOne(chunks)) >= 1
  {
    SlicesJoin(c.content, cfg.capacity);
    SpanSum(pages, chunks, chunks[c].loc, Slices(c.content, cfg.capacity));
  }

  lemma OfChunksSplit(pages: Pages, ids: set<ChunkId>, c: ChunkId, w: Page -> int)
    requires c in ids
    ensures MapSum(OfChunks(pages, ids), w) == MapSum(OfChunks(pages, ids - {c}), w) + MapSum(OfChunk(pages, c), w)
  {
    assert OfChunks(pages, ids) == OfChunks(pages, ids - {c}) + OfChunk(pages, c);
    MapSumUnion(OfChunks(pages, ids - {c}), OfChunk(pages, c), w);
  }

  lemma {:induction false} FreedCoversSome(cfg: Config, pages: Pages, chunks: ChunkTable, part: ChunkTable)
    requires cfg.capacity >= 1 && RecordsHold(cfg, pages, chunks) && OneNamespace(chunks, cfg.ns)
    requires forall c :: c in part ==> c in chunks && part[c] == chunks[c]
    ensures DeadBytes(part) <= MapSum(OfChunks(pages, part.Keys), ReapedBytes(chunks))
    ensures DeadCount(part) <= MapSum(OfChunks(pages, part.Keys), ReapedOne(chunks))
    decreases |part|
  {
    if part == map[] {
      assert OfChunks(pages, {}) == map[];
    } else {
      var c :| c in part;
      var rest := part - {c};
      FreedCoversSome(cfg, pages, chunks, rest);
      MapSumSplit(part, c, DeadLength());
      MapSumSplit(part, c, DeadOne());
      DeadChunkPages(cfg, pages, chunks, c);
      assert rest.Keys == part.Keys - {c};
      OfChunksSplit(pages, part.Keys, c, ReapedBytes(chunks));
      OfChunksSplit(pages, part.Keys, c, ReapedOne(chunks));
    }
  }

  /** One pass frees at least what the dead counters say is dead. */
  lemma FreedCoversDead(cfg: Config, pages: Pages, chunks: ChunkTable)
    requires cfg.capacity >= 1 && RecordsHold(cfg, pages, chunks) && OneNamespace(chunks, cfg.ns)
    ensures DeadBytes(chunks) <= FreedBytes(pages, chunks)
    ensures DeadCount(chunks) <= FreedPages(pages, chunks)
  {
    FreedCoversSome(cfg, pages, chunks, chunks);
    SubSum(pages, OfChunks(pages, chunks.Keys), ReapedBytes(chunks));
    SubSum(pages, OfChunks(pages, chunks.Keys), ReapedOne(chunks));
  }

  /** The state phase 1 leaves when it runs alone. */
  ghost function Swept(cfg: Config, s: IndexState, pages: Pages): IndexState {
    IndexState(s.refs, s.blobs - DeadBlobs(s.blobs), LiveRecords(s.chunks),
               ReconcileDeadStats(s.stats, cfg.ns, FreedBytes(pages, s.chunks), FreedPages(pages, s.chunks)))
  }

  /** After one pass no record is dead, both dead counters are zero, and so exact again. */
  lemma SweepClearsDead(cfg: Config, s: IndexState, pages: Pages)
    requires cfg.capacity >= 1 && RecordsHold(cfg, pages, s.chunks) && OneNamespace(s.chunks, cfg.ns)
    requires DeadLedger(s, cfg.ns)
    ensures var s' := Swept(cfg, s, pages);
            && (forall c :: c in s'.chunks ==> s'.chunks[c].refCount > 0)
            && StatsOf(s'.stats, cfg.ns).deadBytes == 0
            && StatsOf(s'.stats, cfg.ns).deadChunks == 0
            && OneNamespace(s'.chunks, cfg.ns)
            && DeadLedger(s', cfg.ns)
  {
    FreedCoversDead(cfg, pages, s.chunks);
    DeadTotalsZeroIff(LiveRecords(s.chunks), cfg.ns);
  }

  /** Where no record is dead and every page is swept, a pass finds nothing to do. */
  lemma NothingToSweep(pages: Pages, chunks: ChunkTable)
    requires forall c :: c in chunks ==> chunks[c].refCount > 0
    requires forall l :: l in pages ==> pages[l].deleted || pages[l].id in chunks
    ensures SweptPages(pages, chunks) == pages && LiveRecords(chunks) == chunks
    ensures FreedBytes(pages, chunks) == 0 && FreedPages(pages, chunks) == 0
  {
    assert forall l :: l in pages ==> !Reapable(chunks, pages[l]);
    MapSumZero(pages, ReapedBytes(chunks));
    MapSumZero(pages, ReapedOne(chunks));
  }

  lemma NoDeadBlobs(blobs: BlobTable)
    ensures var live := blobs - DeadBlobs(blobs); live - DeadBlobs(live) == live
  {
    assert DeadBlobs(blobs - DeadBlobs(blobs)) == {};
  }

  /** A second pass changes nothing. */
  lemma SweepTwice(cfg: Config, s: IndexState, pages: Pages)
    requires cfg.capacity >= 1 && RecordsHold(cfg, pages, s.chunks) && OneNamespace(s.chunks, cfg.ns)
    requires DeadLedger(s, cfg.ns)
    ensures var s', pages' := Swept(cfg, s, pages), SweptPages(pages, s.chunks);
            && Swept(cfg, s', pages') == s'
            && SweptPages(pages', s'.chunks) == pages'
            && FreedBytes(pages', s'.chunks) == 0 && FreedPages(pages', s'.chunks) == 0
  {
    var s', pages' := Swept(cfg, s, pages), SweptPages(pages, s.chunks);
    SweepClearsDead(cfg, s, pages);
    NothingToSweep(pages', s'.chunks);
    NoDeadBlobs(s.blobs);
    var st := StatsOf(s'.stats, cfg.ns);
    assert st.(deadBytes := 0, deadChunks := 0) == st;
    assert s'.stats[cfg.ns := st] == s'.stats;
  }

  lemma SweptRecordHolds(cfg: Config, pages: Pages, chunks: ChunkTable, c: ChunkId)
    requires cfg.capacity >= 1 && c in chunks && chunks[c].refCount > 0 && Holds(cfg, pages, c, chunks[c])
    ensures Holds(cfg, SweptPages(pages, chunks), c, chunks[c])
  {
    assert chunks[c].loc in Span(chunks[c].loc, chunks[c].pageCount);
  }

  /** The sweep loses no live chunk: every remaining record still holds, and the gaps are as before. */
  lemma SweepKeepsCore(cfg: Config, s: IndexState, d: Disk)
    requires cfg.capacity >= 1 && Core(cfg, s, d)
    ensures Core(cfg, Swept(cfg, s, d.pages), d.(pages := SweptPages(d.pages, s.chunks)))
    ensures KeepsGaps(s, Swept(cfg, s, d.pages))
  {
    forall c | c in s.chunks && s.chunks[c].refCount > 0
      ensures Holds(cfg, SweptPages(d.pages, s.chunks), c, s.chunks[c])
    {
      SweptRecordHolds(cfg, d.pages, s.chunks, c);
    }
    SweepGaps(cfg, s, d.pages);
    assert forall c :: Gap(s, c) >= 0;
  }

  lemma {:induction false} DropDeadBlobs(blobs: BlobTable, dead: set<BlobId>, c: ChunkId)
    requires forall b :: b in dead ==> b in blobs && blobs[b].refCount == 0
    ensures Owed(blobs - dead, c) == Owed(blobs, c)
    decreases |dead|
  {
    if dead == {} {
      assert blobs - dead == blobs;
    } else {
      var b :| b in dead;
      DropDeadBlobs(blobs, dead - {b}, c);
      MapSumDrop(blobs - (dead - {b}), b, Claim(c));
      assert blobs - (dead - {b}) - {b} == blobs - dead;
      assert 0 * Mult(blobs[b].chunkIds, c) == 0;
    }
  }

  lemma SweepGaps(cfg: Config, s: IndexState, pages: Pages)
    requires Solvent(s)
    ensures KeepsGaps(s, Swept(cfg, s, pages))
  {
    var s' := Swept(cfg, s, pages);
    forall c
      ensures Gap(s', c) == Gap(s, c)
    {
      DropDeadBlobs(s.blobs, DeadBlobs(s.blobs), c);
      assert CountOf(s'.chunks, c) == CountOf(s.chunks, c);
    }
    forall b
      ensures RefsTo(s'.refs, b) <= BlobCountOf(s'.blobs, b)
    {
      assert RefsTo(s.refs, b) <= BlobCountOf(s.blobs, b);
    }
  }
}
