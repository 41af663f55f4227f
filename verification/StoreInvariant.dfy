/**
 What every step of the store machine keeps: each chunk record names unflagged
 pages holding that chunk's bytes, counts cover claims, and a page some
 operation is about to mark can never again be the location of a record.

 All of it is said of the chunks outside the disorder `bad`: a set of chunks with
 wrong counts and one of chunks in the wrong place. No step but a crash makes them
 grow; Reopening.dfy says which chunks replay of the log puts into them.
 */
module StoreInvariant {
  import opened Base
  import opened Records
  import opened Disk
  import opened IndexSpec
  import opened DoubleEntry
  import opened ReplaySpec
  import opened StoreMachine

  /** The chunks whose counts, and those whose locations, a reopen has left wrong. */
  datatype Disorder = Disorder(counts: set<ChunkId>, places: set<ChunkId>)

  const IN_ORDER := Disorder({}, {})

  function PieceIds(pieces: seq<Bytes>): (ids: seq<ChunkId>)
    ensures |ids| == |pieces| && forall i :: 0 <= i < |ids| ==> ids[i] == Sha256(pieces[i])
  {
    seq(|pieces|, i requires 0 <= i < |pieces| => Sha256(pieces[i]))
  }

  /** Every piece the chunker yields fits in one page. */
  ghost predicate SinglePage(cfg: Config) {
    forall b, i :: 0 <= i < |cfg.split(b)| ==> |cfg.split(b)[i]| <= cfg.capacity
  }

  predicate ManifestsFixed(cfg: Config, blobs: BlobTable) {
    forall b :: b in blobs ==> blobs[b].chunkIds == PieceIds(cfg.split(b.content))
  }

  /** Every chunk record is this namespace's, and holds its chunk unless that is in `bad`. */
  predicate RecordsHoldBut(cfg: Config, pages: Pages, chunks: ChunkTable, bad: Disorder)
    requires cfg.capacity >= 1
  {
    forall c :: c in chunks ==> chunks[c].ns == cfg.ns && (c !in bad.places ==> Holds(cfg, pages, c, chunks[c]))
  }

  predicate RecordsHold(cfg: Config, pages: Pages, chunks: ChunkTable)
    requires cfg.capacity >= 1
  {
    RecordsHoldBut(cfg, pages, chunks, IN_ORDER)
  }

  /** A page holds the whole of its chunk, with its checksum. */
  predicate WholePages(cfg: Config, pages: Pages) {
    forall l :: l in pages ==>
      pages[l].data == pages[l].id.content && |pages[l].data| <= cfg.capacity && pages[l].crc == cfg.crc(pages[l].data)
  }

  /** No record's span contains the page. */
  predicate ClearBut(chunks: ChunkTable, l: Loc, bad: Disorder) {
    forall c :: c in chunks && c !in bad.places ==> l !in Span(chunks[c].loc, chunks[c].pageCount)
  }

  predicate Clear(chunks: ChunkTable, l: Loc) {
    ClearBut(chunks, l, IN_ORDER)
  }

  /** The page is the destination of an entry still to be committed. */
  predicate Destined(todo: seq<ChunkEntry>, l: Loc) {
    exists i :: 0 <= i < |todo| && todo[i].loc == l
  }

  predicate Pending(procs: map<nat, Proc>, l: Loc) {
    exists p :: p in procs && procs[p].Relocating? && Destined(procs[p].todo, l)
  }

  /** Handed out before, named by no record, and not about to be. */
  predicate Retired(s: Store, l: Loc, bad: Disorder) {
    Used(s.disk, l) && ClearBut(s.idx.chunks, l, bad) && !Pending(s.procs, l)
  }

  predicate HasEntry(todo: seq<ChunkEntry>, c: ChunkId) {
    exists i :: 0 <= i < |todo| && todo[i].chunkId == c
  }

  predicate Queued(pages: Pages, id: ChunkId, l: Loc) {
    l in pages && pages[l].id == id
  }

  /** The relocation loop: entries still to commit hold in the new segment and cover the old one. */
  ghost predicate RelocationOk(cfg: Config, s: Store, proc: Proc, bad: Disorder)
    requires proc.Relocating? && cfg.capacity >= 1
  {
    && 1 <= proc.oldSeg < proc.newSeg == s.disk.nextSeg - 1
    && s.disk.active != Some(proc.oldSeg)
    && (forall i :: 0 <= i < |proc.todo| ==>
          var e := proc.todo[i];
          e.ns == cfg.ns && e.loc.seg == proc.newSeg && Holds(cfg, s.disk.pages, e.chunkId, e))
    && (forall c :: c in s.idx.chunks && c !in bad.places && s.idx.chunks[c].loc.seg == proc.oldSeg ==> HasEntry(proc.todo, c))
    && (proc.got.Some? ==>
          proc.todo != [] && proc.got.value.refCount >= 0
          && proc.got.value.refCount >= CountOf(s.idx.chunks, proc.todo[0].chunkId))
  }

  ghost predicate ProcOk(cfg: Config, s: Store, p: nat, bad: Disorder)
    requires cfg.capacity >= 1 && p in s.procs
  {
    match s.procs[p]
    case Marking(dups) => forall i :: 0 <= i < |dups| ==> Retired(s, dups[i], bad)
    case Sweeping(queue, verdict) =>
      && (forall i :: 0 <= i < |queue| ==> Queued(s.disk.pages, queue[i].0, queue[i].1))
      && (verdict.Some? ==> Retired(s, verdict.value, bad))
    case Exclusive => s.procs.Keys == {p}
    case Relocating(_, _, _, _) => s.procs.Keys == {p} && RelocationOk(cfg, s, s.procs[p], bad)
  }

  // ---- the log

  /** The page carries slice `i` of the chunk, flagged or not. */
  predicate Carries(cfg: Config, page: Page, c: ChunkId, i: nat)
    requires cfg.capacity >= 1
  {
    var slices := Slices(c.content, cfg.capacity);
    && page.id == c && i < |slices| && page.data == slices[i]
    && (i == 0 ==> page.crc == cfg.crc(c.content))
  }

  /** A logged chunk: its pages, as far as they are still there, are the ones that were written for it. */
  predicate ChunkLogged(cfg: Config, d: Disk, e: ChunkEntry)
    requires cfg.capacity >= 1
  {
    && e.ns == cfg.ns
    && e.length == |e.chunkId.content|
    && e.pageCount == |Slices(e.chunkId.content, cfg.capacity)|
    && (forall l :: l in Span(e.loc, e.pageCount) ==>
          Used(d, l) && (l in d.pages ==> Carries(cfg, d.pages[l], e.chunkId, l.off - e.loc.off)))
  }

  predicate EntryLogged(cfg: Config, d: Disk, e: Logged)
    requires cfg.capacity >= 1
  {
    && EntryIds(e.chunks) == PieceIds(cfg.split(e.blobId.content))
    && (forall i :: 0 <= i < |e.chunks| ==> ChunkLogged(cfg, d, e.chunks[i]))
  }

  predicate LogOk(cfg: Config, d: Disk, wal: Wals)
    requires cfg.capacity >= 1
  {
    forall g, i :: g in wal && 0 <= i < |wal[g]| ==> EntryLogged(cfg, d, wal[g][i])
  }

  /** Equal, except that the page may have been flagged in between. */
  predicate SamePage(a: Page, b: Page) {
    b == a || b == a.(deleted := true)
  }

  /** Positions handed out keep their pages, flagged or not, or lose them with their segment. */
  ghost predicate PagesStay(d: Disk, d': Disk) {
    forall l :: Used(d, l) ==>
      Used(d', l) && (l in d'.pages ==> l in d.pages && SamePage(d.pages[l], d'.pages[l]))
  }

  lemma ExtendsPagesStay(d: Disk, d': Disk)
    requires Extends(d, d')
    ensures PagesStay(d, d')
  {
  }

  lemma LogStays(cfg: Config, d: Disk, d': Disk, wal: Wals)
    requires cfg.capacity >= 1 && LogOk(cfg, d, wal) && PagesStay(d, d')
    ensures LogOk(cfg, d', wal)
  {
    forall g, i | g in wal && 0 <= i < |wal[g]|
      ensures EntryLogged(cfg, d', wal[g][i])
    {
      EntryStays(cfg, d, d', wal[g][i]);
    }
  }

  lemma EntryStays(cfg: Config, d: Disk, d': Disk, e: Logged)
    requires cfg.capacity >= 1 && EntryLogged(cfg, d, e) && PagesStay(d, d')
    ensures EntryLogged(cfg, d', e)
  {
    forall i | 0 <= i < |e.chunks|
      ensures ChunkLogged(cfg, d', e.chunks[i])
    {
      ChunkStays(cfg, d, d', e.chunks[i]);
    }
  }

  lemma ChunkStays(cfg: Config, d: Disk, d': Disk, e: ChunkEntry)
    requires cfg.capacity >= 1 && ChunkLogged(cfg, d, e) && PagesStay(d, d')
    ensures ChunkLogged(cfg, d', e)
  {
    forall l | l in Span(e.loc, e.pageCount)
      ensures Used(d', l) && (l in d'.pages ==> Carries(cfg, d'.pages[l], e.chunkId, l.off - e.loc.off))
    {
      assert Used(d, l);
      if l in d'.pages {
        assert SamePage(d.pages[l], d'.pages[l]);
      }
    }
  }

  /** A record that holds is what a log entry promises. */
  lemma HeldIsLogged(cfg: Config, d: Disk, e: ChunkEntry)
    requires cfg.capacity >= 1 && e.ns == cfg.ns && Holds(cfg, d.pages, e.chunkId, e) && UsedSpan(d, e)
    ensures ChunkLogged(cfg, d, e)
  {
    assert e.loc in Span(e.loc, e.pageCount);
    forall l | l in Span(e.loc, e.pageCount)
      ensures Carries(cfg, d.pages[l], e.chunkId, l.off - e.loc.off)
    {
      if l.off == e.loc.off {
        assert l == e.loc;
      }
    }
  }

  /** And a logged chunk holds exactly if all its pages are there and unflagged. */
  lemma LoggedHoldsIff(cfg: Config, d: Disk, e: ChunkEntry)
    requires cfg.capacity >= 1 && ChunkLogged(cfg, d, e)
    ensures Holds(cfg, d.pages, e.chunkId, e) <==> Intact(d.pages, e)
  {
    assert e.loc in Span(e.loc, e.pageCount);
    if Intact(d.pages, e) {
      forall l | l in Span(e.loc, e.pageCount)
        ensures Carries(cfg, d.pages[l], e.chunkId, l.off - e.loc.off)
      {
        assert Live(d.pages, l);
      }
    }
  }

  /** Every page of the entry is there and unflagged. */
  predicate Intact(pages: Pages, e: ChunkEntry) {
    forall l :: l in Span(e.loc, e.pageCount) ==> Live(pages, l)
  }

  lemma LogDropped(cfg: Config, d: Disk, wal: Wals, seg: nat)
    requires cfg.capacity >= 1 && LogOk(cfg, d, wal)
    ensures LogOk(cfg, d, wal - {seg})
  {
    var wal' := wal - {seg};
    forall g, i | g in wal' && 0 <= i < |wal'[g]|
      ensures EntryLogged(cfg, d, wal'[g][i])
    {
      assert wal'[g] == wal[g];
    }
  }

  lemma LogAppended(cfg: Config, d: Disk, wal: Wals, seg: nat, e: Logged)
    requires cfg.capacity >= 1 && LogOk(cfg, d, wal) && EntryLogged(cfg, d, e)
    ensures LogOk(cfg, d, AppendLog(wal, seg, e))
  {
    var wal' := AppendLog(wal, seg, e);
    forall g, i | g in wal' && 0 <= i < |wal'[g]|
      ensures EntryLogged(cfg, d, wal'[g][i])
    {
      if g == seg && i < |SegmentLog(wal, seg)| {
        assert wal'[g][i] == wal[g][i];
      }
    }
  }

  // ---- the invariant

  /** What holds of the index and the disk between operations, whatever the size of a chunk. */
  ghost predicate CoreBut(cfg: Config, idx: IndexState, d: Disk, bad: Disorder)
    requires cfg.capacity >= 1
  {
    && SolventBut(idx, bad.counts)
    && ManifestsFixed(cfg, idx.blobs)
    && ValidDisk(d)
    && RecordsHoldBut(cfg, d.pages, idx.chunks, bad)
  }

  ghost predicate Core(cfg: Config, idx: IndexState, d: Disk)
    requires cfg.capacity >= 1
  {
    CoreBut(cfg, idx, d, IN_ORDER)
  }

  ghost predicate Inv(cfg: Config, s: Store, bad: Disorder)
    requires cfg.capacity >= 1
  {
    && CoreBut(cfg, s.idx, s.disk, bad)
    && WholePages(cfg, s.disk.pages)
    && LogOk(cfg, s.disk, s.wal)
    && (forall p :: p in s.procs ==> ProcOk(cfg, s, p, bad))
  }

  /** The whole invariant while a relocation runs. */
  lemma LoneRelocation(cfg: Config, s: Store, p: nat, bad: Disorder)
    requires cfg.capacity >= 1 && CoreBut(cfg, s.idx, s.disk, bad)
    requires WholePages(cfg, s.disk.pages) && LogOk(cfg, s.disk, s.wal)
    requires s.procs.Keys == {p} && s.procs[p].Relocating? && RelocationOk(cfg, s, s.procs[p], bad)
    ensures Inv(cfg, s, bad)
  {
  }

  // ---- records through a change of tables or pages

  /** Counts do not matter to where a record points. */
  lemma SameRecordsHold(cfg: Config, pages: Pages, chunks: ChunkTable, chunks': ChunkTable, bad: Disorder)
    requires cfg.capacity >= 1 && RecordsHoldBut(cfg, pages, chunks, bad) && SameRecords(chunks, chunks')
    ensures RecordsHoldBut(cfg, pages, chunks', bad)
    ensures forall l :: ClearBut(chunks, l, bad) ==> ClearBut(chunks', l, bad)
  {
    forall c | c in chunks'
      ensures chunks'[c].loc == chunks[c].loc && chunks'[c].pageCount == chunks[c].pageCount
      ensures chunks'[c].ns == cfg.ns && (c !in bad.places ==> Holds(cfg, pages, c, chunks'[c]))
    {
      assert chunks'[c] == chunks[c].(refCount := chunks'[c].refCount);
    }
  }

  lemma RecordsHoldExtends(cfg: Config, d: Disk, d': Disk, chunks: ChunkTable, bad: Disorder)
    requires cfg.capacity >= 1 && RecordsHoldBut(cfg, d.pages, chunks, bad) && Extends(d, d')
    ensures RecordsHoldBut(cfg, d'.pages, chunks, bad)
  {
    forall c | c in chunks && c !in bad.places
      ensures Holds(cfg, d'.pages, c, chunks[c])
    {
      HoldsExtends(cfg, d, d', c, chunks[c]);
    }
  }

  /** Flagging a page outside every record's span leaves all records holding. */
  lemma FlagKeepsRecords(cfg: Config, pages: Pages, chunks: ChunkTable, l: Loc, bad: Disorder)
    requires cfg.capacity >= 1 && RecordsHoldBut(cfg, pages, chunks, bad) && ClearBut(chunks, l, bad)
    ensures RecordsHoldBut(cfg, MarkDeleted(pages, l), chunks, bad)
  {
    var pages' := MarkDeleted(pages, l);
    forall c | c in chunks && c !in bad.places
      ensures Holds(cfg, pages', c, chunks[c])
    {
      assert chunks[c].loc in Span(chunks[c].loc, chunks[c].pageCount);
    }
  }

  /** The whole span of a held record has been handed out. */
  lemma HeldSpanUsed(cfg: Config, d: Disk, c: ChunkId, entry: ChunkEntry)
    requires cfg.capacity >= 1 && ValidDisk(d) && Holds(cfg, d.pages, c, entry)
    ensures UsedSpan(d, entry)
  {
  }

  // ---- the upsert loop and locations

  lemma {:induction false} UpsertHolds(cfg: Config, pages: Pages, chunks: ChunkTable, entries: seq<ChunkEntry>,
                                       bad: Disorder)
    requires cfg.capacity >= 1 && RecordsHoldBut(cfg, pages, chunks, bad)
    requires forall e :: e in entries ==> e.ns == cfg.ns && Holds(cfg, pages, e.chunkId, e)
    ensures RecordsHoldBut(cfg, pages, UpsertAll(cfg.ns, chunks, entries).chunks, bad)
    decreases |entries|
  {
    if entries != [] {
      var init, last := entries[..|entries| - 1], entries[|entries| - 1];
      assert last in entries && forall e :: e in init ==> e in entries;
      UpsertHolds(cfg, pages, chunks, init, bad);
      UpsertOneHolds(cfg, pages, UpsertAll(cfg.ns, chunks, init), last, bad);
    }
  }

  lemma UpsertOneHolds(cfg: Config, pages: Pages, u: Upsert, e: ChunkEntry, bad: Disorder)
    requires cfg.capacity >= 1 && RecordsHoldBut(cfg, pages, u.chunks, bad)
    requires e.ns == cfg.ns && Holds(cfg, pages, e.chunkId, e)
    ensures RecordsHoldBut(cfg, pages, UpsertOne(cfg.ns, u, e).chunks, bad)
  {
    var u' := UpsertOne(cfg.ns, u, e);
    if e.chunkId in u.chunks {
      SameRecordsHold(cfg, pages, u.chunks, u'.chunks, bad);
    } else {
      assert u'.chunks == u.chunks[e.chunkId := e.(refCount := 1)];
    }
  }

  predicate SameSpan(a: ChunkEntry, b: ChunkEntry) {
    a.loc == b.loc && a.pageCount == b.pageCount
  }

  predicate FromEntry(rec: ChunkEntry, entries: seq<ChunkEntry>) {
    exists i :: 0 <= i < |entries| && SameSpan(rec, entries[i])
  }

  /** Entries as WriteBlob leaves them: on positions not used in `d`, apart from each other. */
  predicate FreshEntries(d: Disk, entries: seq<ChunkEntry>) {
    && (forall i :: 0 <= i < |entries| ==> FreshEntry(d, entries[i]))
    && (forall i, j :: 0 <= i < j < |entries| ==> Apart(entries[i], entries[j]))
  }

  predicate FreshEntry(d: Disk, e: ChunkEntry) {
    && e.loc in Span(e.loc, e.pageCount)
    && (forall l :: l in Span(e.loc, e.pageCount) ==> !Used(d, l))
  }

  predicate UsedSpan(d: Disk, e: ChunkEntry) {
    forall l :: l in Span(e.loc, e.pageCount) ==> Used(d, l)
  }

  predicate AllOwned(ns: NsId, chunks: ChunkTable) {
    forall c :: c in chunks ==> chunks[c].ns == ns
  }

  /** Where the records are after the loop: where they were, or where one of the entries is. */
  predicate Origins(chunks: ChunkTable, u: Upsert, entries: seq<ChunkEntry>, bad: Disorder) {
    && (forall c :: c in u.chunks && c !in bad.places ==>
          (c in chunks && SameSpan(u.chunks[c], chunks[c])) || FromEntry(u.chunks[c], entries))
    && (forall e :: e in u.reused ==> e in entries && ClearBut(u.chunks, e.loc, bad))
  }

  predicate UsedSpans(d: Disk, chunks: ChunkTable, bad: Disorder) {
    forall c :: c in chunks && c !in bad.places ==> UsedSpan(d, chunks[c])
  }

  /** The duplicates the loop reports lie outside every record's span. */
  lemma {:induction false} UpsertOrigins(ns: NsId, d: Disk, chunks: ChunkTable, entries: seq<ChunkEntry>, bad: Disorder)
    requires AllOwned(ns, chunks) && forall e :: e in entries ==> e.ns == ns
    requires FreshEntries(d, entries) && UsedSpans(d, chunks, bad)
    ensures var u := UpsertAll(ns, chunks, entries); AllOwned(ns, u.chunks) && Origins(chunks, u, entries, bad)
    decreases |entries|
  {
    if entries != [] {
      var n := |entries| - 1;
      var init, last := entries[..n], entries[n];
      FreshPrefix(d, entries);
      UpsertOrigins(ns, d, chunks, init, bad);
      OriginsOne(ns, d, chunks, UpsertAll(ns, chunks, init), init, last, bad);
    }
  }

  lemma FreshPrefix(d: Disk, entries: seq<ChunkEntry>)
    requires entries != [] && FreshEntries(d, entries)
    ensures var init, last := entries[..|entries| - 1], entries[|entries| - 1];
            && FreshEntries(d, init) && FreshEntry(d, last)
            && (forall i :: 0 <= i < |init| ==> Apart(init[i], last))
            && entries == init + [last]
            && last in entries && (forall e :: e in init ==> e in entries)
  {
  }

  lemma OriginsOne(ns: NsId, d: Disk, chunks: ChunkTable, u: Upsert, entries: seq<ChunkEntry>, last: ChunkEntry,
                   bad: Disorder)
    requires AllOwned(ns, u.chunks) && last.ns == ns
    requires Origins(chunks, u, entries, bad) && UsedSpans(d, chunks, bad)
    requires FreshEntries(d, entries) && FreshEntry(d, last) && forall i :: 0 <= i < |entries| ==> Apart(entries[i], last)
    ensures var u' := UpsertOne(ns, u, last); AllOwned(ns, u'.chunks) && Origins(chunks, u', entries + [last], bad)
  {
    if last.chunkId in u.chunks {
      FreshIsClear(d, chunks, u, entries, last, bad);
      ReuseOrigins(ns, chunks, u, entries, last, bad);
    } else {
      RegisterOrigins(ns, d, chunks, u, entries, last, bad);
    }
  }

  lemma FromEntryGrows(rec: ChunkEntry, entries: seq<ChunkEntry>, last: ChunkEntry)
    ensures FromEntry(rec, entries + [last]) <==> FromEntry(rec, entries) || SameSpan(rec, last)
  {
    var all := entries + [last];
    assert forall i :: 0 <= i < |entries| ==> all[i] == entries[i];
    assert all[|entries|] == last;
  }

  /** The page of a fresh entry is in no span placed before it. */
  lemma FreshIsClear(d: Disk, chunks: ChunkTable, u: Upsert, entries: seq<ChunkEntry>, last: ChunkEntry, bad: Disorder)
    requires Origins(chunks, u, entries, bad) && UsedSpans(d, chunks, bad)
    requires FreshEntry(d, last) && forall i :: 0 <= i < |entries| ==> Apart(entries[i], last)
    ensures ClearBut(u.chunks, last.loc, bad)
  {
    forall c | c in u.chunks && c !in bad.places
      ensures last.loc !in Span(u.chunks[c].loc, u.chunks[c].pageCount)
    {
      if c in chunks && SameSpan(u.chunks[c], chunks[c]) {
        assert UsedSpan(d, chunks[c]);
      } else {
        var i :| 0 <= i < |entries| && SameSpan(u.chunks[c], entries[i]);
        assert Apart(entries[i], last);
      }
    }
  }

  lemma FromEntryAlike(a: ChunkEntry, b: ChunkEntry, entries: seq<ChunkEntry>)
    requires SameSpan(a, b) && FromEntry(a, entries)
    ensures FromEntry(b, entries)
  {
    var i :| 0 <= i < |entries| && SameSpan(a, entries[i]);
    assert SameSpan(b, entries[i]);
  }

  lemma ReuseOrigins(ns: NsId, chunks: ChunkTable, u: Upsert, entries: seq<ChunkEntry>, last: ChunkEntry, bad: Disorder)
    requires AllOwned(ns, u.chunks) && last.chunkId in u.chunks
    requires Origins(chunks, u, entries, bad) && ClearBut(u.chunks, last.loc, bad)
    ensures var u' := UpsertOne(ns, u, last); AllOwned(ns, u'.chunks) && Origins(chunks, u', entries + [last], bad)
  {
    var u' := UpsertOne(ns, u, last);
    assert u'.reused == u.reused + [last];
    assert forall c :: c in u'.chunks ==> c in u.chunks && SameSpan(u'.chunks[c], u.chunks[c]);
    assert forall l :: ClearBut(u.chunks, l, bad) ==> ClearBut(u'.chunks, l, bad);
    forall c | c in u'.chunks && FromEntry(u.chunks[c], entries)
      ensures FromEntry(u'.chunks[c], entries + [last])
    {
      FromEntryAlike(u.chunks[c], u'.chunks[c], entries);
      FromEntryGrows(u'.chunks[c], entries, last);
    }
  }

  lemma RegisterOrigins(ns: NsId, d: Disk, chunks: ChunkTable, u: Upsert, entries: seq<ChunkEntry>, last: ChunkEntry,
                        bad: Disorder)
    requires AllOwned(ns, u.chunks) && last.chunkId !in u.chunks && last.ns == ns
    requires Origins(chunks, u, entries, bad)
    requires FreshEntries(d, entries) && forall i :: 0 <= i < |entries| ==> Apart(entries[i], last)
    ensures var u' := UpsertOne(ns, u, last); AllOwned(ns, u'.chunks) && Origins(chunks, u', entries + [last], bad)
  {
    var u' := UpsertOne(ns, u, last);
    forall c | c in u'.chunks && c !in bad.places
      ensures (c in chunks && SameSpan(u'.chunks[c], chunks[c])) || FromEntry(u'.chunks[c], entries + [last])
    {
      FromEntryGrows(u'.chunks[c], entries, last);
    }
    forall f | f in u'.reused
      ensures f in entries + [last] && ClearBut(u'.chunks, f.loc, bad)
    {
      assert f in u.reused;
      var i :| 0 <= i < |entries| && entries[i] == f;
      assert FreshEntry(d, entries[i]) && Apart(entries[i], last);
    }
  }

  /** A page used before the put and clear of the old records is clear of the new ones. */
  lemma OldClearStays(d: Disk, chunks: ChunkTable, u: Upsert, entries: seq<ChunkEntry>, l: Loc, bad: Disorder)
    requires Origins(chunks, u, entries, bad) && FreshEntries(d, entries)
    requires Used(d, l) && ClearBut(chunks, l, bad)
    ensures ClearBut(u.chunks, l, bad)
  {
    forall c | c in u.chunks && c !in bad.places
      ensures l !in Span(u.chunks[c].loc, u.chunks[c].pageCount)
    {
      if !(c in chunks && SameSpan(u.chunks[c], chunks[c])) {
        var i :| 0 <= i < |entries| && SameSpan(u.chunks[c], entries[i]);
        assert FreshEntry(d, entries[i]);
      }
    }
  }
}
