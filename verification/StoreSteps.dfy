/**
 Every step of the store machine but a crash keeps the invariant for the chunks
 that are not in disorder, and un-retires no page. The crash step is in Reopening.dfy.
 */
module StoreSteps {
  import opened Base
  import opened Records
  import opened Disk
  import opened IndexSpec
  import opened DoubleEntry
  import opened ReplaySpec
  import opened StoreMachine
  import opened StoreInvariant

  ghost predicate RetiredStays(s: Store, s': Store, bad: Disorder) {
    forall l :: Retired(s, l, bad) ==> Retired(s', l, bad)
  }

  ghost predicate PagesKept(s: Store, s': Store) {
    forall l :: l in s.disk.pages ==> l in s'.disk.pages && s'.disk.pages[l].id == s.disk.pages[l].id
  }

  /** What a step that leaves the exclusive guard alone has to show. */
  ghost predicate Ok(cfg: Config, s: Store, s': Store, bad: Disorder)
    requires cfg.capacity >= 1
  {
    Inv(cfg, s', bad) && RetiredStays(s, s', bad)
  }

  /** A marking or sweeping operation that did not move stays in order. */
  lemma ProcStays(cfg: Config, s: Store, s': Store, p: nat, bad: Disorder)
    requires cfg.capacity >= 1 && p in s.procs && p in s'.procs && s'.procs[p] == s.procs[p]
    requires s.procs[p].Marking? || s.procs[p].Sweeping?
    requires ProcOk(cfg, s, p, bad) && RetiredStays(s, s', bad) && PagesKept(s, s')
    ensures ProcOk(cfg, s', p, bad)
  {
  }

  /** Without a relocation under way nothing is pending. */
  lemma NothingPending(s: Store)
    requires SharedGuard(s)
    ensures forall l :: !Pending(s.procs, l)
  {
  }

  // ---- the tables

  /** A put through the fixed chunker moves no gap. */
  lemma PutIndex(cfg: Config, idx: IndexState, key: Key, content: Bytes, entries: seq<ChunkEntry>, bad: set<ChunkId>)
    requires SolventBut(idx, bad) && ManifestsFixed(cfg, idx.blobs) && AllOwned(cfg.ns, idx.chunks)
    requires EntryIds(entries) == PieceIds(cfg.split(content)) && forall e :: e in entries ==> e.ns == cfg.ns
    ensures var idx' := CommitPut(idx, RefFor(cfg, key, content, entries), BlobFor(content, entries), entries).0;
            KeepsGapsBut(idx, idx', bad) && ManifestsFixed(cfg, idx'.blobs)
  {
    var ref, blob := RefFor(cfg, key, content, entries), BlobFor(content, entries);
    var idx' := CommitPut(idx, ref, blob, entries).0;
    PutBeforeUpsert(idx, ref, blob, bad);
    var before := ReleaseReplaced(idx, ref, blob).dec.chunks;
    forall c | c in before
      ensures before[c].ns == cfg.ns
    {
      assert before[c].(refCount := 0) == idx.chunks[c].(refCount := 0);
    }
    PutKeepsBacked(idx, ref, blob, entries);
    PutCountsNonNegative(idx, ref, blob, entries, bad);
    forall c | c !in bad
      ensures Gap(idx', c) == Gap(idx, c)
    {
      PutGap(idx, ref, blob, entries, c, bad);
    }
    forall b | b in idx'.blobs
      ensures idx'.blobs[b].chunkIds == PieceIds(cfg.split(b.content))
    {
      assert b in AddBlob(idx.blobs, blob) && AddBlob(idx.blobs, blob)[b].chunkIds == PieceIds(cfg.split(b.content));
    }
  }

  lemma EntryIdsArePieceIds(cfg: Config, d: Disk, d': Disk, pieces: seq<Bytes>, entries: seq<ChunkEntry>)
    requires cfg.capacity >= 1 && Written(cfg, d, d', pieces, entries)
    ensures EntryIds(entries) == PieceIds(pieces)
    ensures forall e :: e in entries ==> e.ns == cfg.ns && Holds(cfg, d'.pages, e.chunkId, e)
    ensures FreshEntries(d, entries) && forall e :: e in entries ==> Used(d', e.loc)
  {
    forall i | 0 <= i < |entries|
      ensures entries[i].chunkId == Sha256(pieces[i]) && Holds(cfg, d'.pages, entries[i].chunkId, entries[i])
      ensures entries[i].loc in Span(entries[i].loc, entries[i].pageCount)
    {
      assert Holds(cfg, d'.pages, Sha256(pieces[i]), entries[i]);
    }
    forall i | 0 <= i < |entries|
      ensures FreshEntry(d, entries[i]) && Used(d', entries[i].loc)
    {
      assert FreshSpan(d, d', entries[i]);
    }
  }

  // ---- pages written whole

  lemma WriteChunkWhole(cfg: Config, d: Disk, data: Bytes, seqNo: nat, roll: bool)
    requires cfg.capacity >= 1 && |data| <= cfg.capacity && WholePages(cfg, d.pages)
    ensures WholePages(cfg, WriteChunk(cfg, d, data, seqNo, roll).0.pages)
  {
    SlicesJoin(data, cfg.capacity);
    assert Slices(data, cfg.capacity) == [data];
  }

  lemma {:induction false} WritePiecesWhole(cfg: Config, d: Disk, pieces: seq<Bytes>, rolls: seq<bool>)
    requires cfg.capacity >= 1 && WholePages(cfg, d.pages)
    requires forall i :: 0 <= i < |pieces| ==> |pieces[i]| <= cfg.capacity
    ensures WholePages(cfg, WritePieces(cfg, d, pieces, rolls).0.pages)
    decreases |pieces|
  {
    if pieces != [] {
      var n := |pieces| - 1;
      WritePiecesWhole(cfg, d, pieces[..n], rolls);
      WriteChunkWhole(cfg, WritePieces(cfg, d, pieces[..n], rolls).0, pieces[n], n, n < |rolls| && rolls[n]);
    }
  }

  // ---- the log

  lemma WrittenIsLogged(cfg: Config, d: Disk, d': Disk, wal: Wals, content: Bytes, entries: seq<ChunkEntry>)
    requires cfg.capacity >= 1 && Written(cfg, d, d', cfg.split(content), entries) && LogOk(cfg, d, wal)
    ensures EntryLogged(cfg, d', Logged(Sha256(content), entries))
    ensures LogOk(cfg, d', LogBlob(wal, d', content, entries))
  {
    var pieces := cfg.split(content);
    EntryIdsArePieceIds(cfg, d, d', pieces, entries);
    forall i | 0 <= i < |entries|
      ensures ChunkLogged(cfg, d', entries[i])
    {
      assert Holds(cfg, d'.pages, Sha256(pieces[i]), entries[i]) && FreshSpan(d, d', entries[i]);
      HeldIsLogged(cfg, d', entries[i]);
    }
    ExtendsPagesStay(d, d');
    LogStays(cfg, d, d', wal);
    if d'.active.Some? {
      LogAppended(cfg, d', wal, d'.active.value, Logged(Sha256(content), entries));
    }
  }

  // ---- Put

  /** The records after a put, the pages it retires, and those that were retired before. */
  lemma PutRecords(cfg: Config, s: Store, p: nat, key: Key, content: Bytes, rolls: seq<bool>, d': Disk,
                   entries: seq<ChunkEntry>, bad: Disorder)
    requires cfg.capacity >= 1 && CoreBut(cfg, s.idx, s.disk, bad) && SharedGuard(s)
    requires (d', entries) == WritePieces(cfg, s.disk, cfg.split(content), rolls)
    requires Written(cfg, s.disk, d', cfg.split(content), entries)
    requires FreshEntries(s.disk, entries)
    requires forall e :: e in entries ==> e.ns == cfg.ns && Used(d', e.loc) && Holds(cfg, d'.pages, e.chunkId, e)
    ensures var s' := PutStep(cfg, s, p, key, content, rolls);
            && RecordsHoldBut(cfg, d'.pages, s'.idx.chunks, bad)
            && RetiredStays(s, s', bad)
            && (forall i :: 0 <= i < |s'.procs[p].dups| ==> Retired(s', s'.procs[p].dups[i], bad))
  {
    var s' := PutStep(cfg, s, p, key, content, rolls);
    var ref, blob := RefFor(cfg, key, content, entries), BlobFor(content, entries);
    PutBeforeUpsert(s.idx, ref, blob, bad.counts);
    var before := ReleaseReplaced(s.idx, ref, blob).dec.chunks;
    SameRecordsHold(cfg, s.disk.pages, s.idx.chunks, before, bad);
    UpsertAfterRelease(cfg, s.disk, d', before, entries, bad);
    NothingPending(s);
    NothingPending(s');
    PutRetires(s, s', before, UpsertAll(cfg.ns, before, entries), entries, bad);
  }

  /** The pages of the duplicates are retired, and those that were stay so. */
  lemma PutRetires(s: Store, s': Store, before: ChunkTable, u: Upsert, entries: seq<ChunkEntry>, bad: Disorder)
    requires Origins(before, u, entries, bad) && FreshEntries(s.disk, entries)
    requires s'.idx.chunks == u.chunks && (forall l :: Used(s.disk, l) ==> Used(s'.disk, l))
    requires forall l :: ClearBut(s.idx.chunks, l, bad) ==> ClearBut(before, l, bad)
    requires forall l :: !Pending(s'.procs, l)
    requires forall e :: e in entries ==> Used(s'.disk, e.loc)
    ensures RetiredStays(s, s', bad)
    ensures forall i :: 0 <= i < |u.reused| ==> Retired(s', u.reused[i].loc, bad)
  {
    forall l | Retired(s, l, bad)
      ensures Retired(s', l, bad)
    {
      OldClearStays(s.disk, before, u, entries, l, bad);
    }
    forall i | 0 <= i < |u.reused|
      ensures Retired(s', u.reused[i].loc, bad)
    {
      assert u.reused[i] in u.reused;
    }
  }

  /** For chunks of any number of pages: a put leaves every chunk that was in order in order. */
  lemma PutCore(cfg: Config, s: Store, p: nat, key: Key, content: Bytes, rolls: seq<bool>, bad: Disorder)
    requires cfg.capacity >= 1 && CoreBut(cfg, s.idx, s.disk, bad) && SharedGuard(s)
    ensures var s' := PutStep(cfg, s, p, key, content, rolls); CoreBut(cfg, s'.idx, s'.disk, bad)
  {
    var pieces := cfg.split(content);
    var w := WritePieces(cfg, s.disk, pieces, rolls);
    WritePiecesHolds(cfg, s.disk, pieces, rolls);
    EntryIdsArePieceIds(cfg, s.disk, w.0, pieces, w.1);
    PutIndex(cfg, s.idx, key, content, w.1, bad.counts);
    KeptGapsStaySolvent(s.idx, PutStep(cfg, s, p, key, content, rolls).idx, bad.counts);
    PutRecords(cfg, s, p, key, content, rolls, w.0, w.1, bad);
  }

  /** The tables, the pages and the log after a put. */
  lemma PutTables(cfg: Config, s: Store, p: nat, key: Key, content: Bytes, rolls: seq<bool>, bad: Disorder)
    requires ValidConfig(cfg) && SinglePage(cfg) && Inv(cfg, s, bad) && SharedGuard(s)
    ensures var s' := PutStep(cfg, s, p, key, content, rolls);
            && CoreBut(cfg, s'.idx, s'.disk, bad)
            && WholePages(cfg, s'.disk.pages)
            && LogOk(cfg, s'.disk, s'.wal)
            && PagesKept(s, s') && RetiredStays(s, s', bad)
            && (forall i :: 0 <= i < |s'.procs[p].dups| ==> Retired(s', s'.procs[p].dups[i], bad))
  {
    var pieces := cfg.split(content);
    var w := WritePieces(cfg, s.disk, pieces, rolls);
    WritePiecesHolds(cfg, s.disk, pieces, rolls);
    WritePiecesWhole(cfg, s.disk, pieces, rolls);
    EntryIdsArePieceIds(cfg, s.disk, w.0, pieces, w.1);
    WrittenIsLogged(cfg, s.disk, w.0, s.wal, content, w.1);
    PutIndex(cfg, s.idx, key, content, w.1, bad.counts);
    KeptGapsStaySolvent(s.idx, PutStep(cfg, s, p, key, content, rolls).idx, bad.counts);
    PutRecords(cfg, s, p, key, content, rolls, w.0, w.1, bad);
  }

  lemma PutKeeps(cfg: Config, s: Store, p: nat, key: Key, content: Bytes, rolls: seq<bool>, bad: Disorder)
    requires ValidConfig(cfg) && SinglePage(cfg) && Inv(cfg, s, bad) && Enabled(s, Put(p, key, content, rolls))
    ensures Ok(cfg, s, PutStep(cfg, s, p, key, content, rolls), bad)
  {
    var s' := PutStep(cfg, s, p, key, content, rolls);
    PutTables(cfg, s, p, key, content, rolls, bad);
    assert s'.procs == s.procs[p := s'.procs[p]];
    forall q | q in s'.procs
      ensures ProcOk(cfg, s', q, bad)
    {
      if q != p {
        ProcStays(cfg, s, s', q, bad);
      }
    }
  }

  lemma UpsertAfterRelease(cfg: Config, d: Disk, d': Disk, before: ChunkTable, entries: seq<ChunkEntry>, bad: Disorder)
    requires cfg.capacity >= 1 && ValidDisk(d) && Extends(d, d') && RecordsHoldBut(cfg, d.pages, before, bad)
    requires FreshEntries(d, entries)
    requires forall e :: e in entries ==> e.ns == cfg.ns && Holds(cfg, d'.pages, e.chunkId, e)
    ensures var u := UpsertAll(cfg.ns, before, entries);
            RecordsHoldBut(cfg, d'.pages, u.chunks, bad) && Origins(before, u, entries, bad)
  {
    RecordsHoldExtends(cfg, d, d', before, bad);
    forall c | c in before && c !in bad.places
      ensures UsedSpan(d, before[c])
    {
      HeldSpanUsed(cfg, d, c, before[c]);
    }
    UpsertHolds(cfg, d'.pages, before, entries, bad);
    UpsertOrigins(cfg.ns, d, before, entries, bad);
  }

  /** Pages that no record names change nothing, whether or not their blob gets into the log. */
  lemma OrphansKeep(cfg: Config, s: Store, pieces: seq<Bytes>, rolls: seq<bool>, wal: Wals, bad: Disorder)
    requires cfg.capacity >= 1 && Inv(cfg, s, bad) && SharedGuard(s)
    requires forall i :: 0 <= i < |pieces| ==> |pieces[i]| <= cfg.capacity
    requires LogOk(cfg, WritePieces(cfg, s.disk, pieces, rolls).0, wal)
    ensures Ok(cfg, s, s.(disk := WritePieces(cfg, s.disk, pieces, rolls).0, wal := wal), bad)
  {
    var s' := s.(disk := WritePieces(cfg, s.disk, pieces, rolls).0, wal := wal);
    WritePiecesHolds(cfg, s.disk, pieces, rolls);
    WritePiecesWhole(cfg, s.disk, pieces, rolls);
    RecordsHoldExtends(cfg, s.disk, s'.disk, s.idx.chunks, bad);
    NothingPending(s');
    forall q | q in s'.procs
      ensures ProcOk(cfg, s', q, bad)
    {
      ProcStays(cfg, s, s', q, bad);
    }
  }

  lemma RejectedPutKeeps(cfg: Config, s: Store, content: Bytes, rolls: seq<bool>, bad: Disorder)
    requires ValidConfig(cfg) && SinglePage(cfg) && Inv(cfg, s, bad) && SharedGuard(s)
    ensures Ok(cfg, s, RejectedPutStep(cfg, s, content, rolls), bad)
  {
    var w := WritePieces(cfg, s.disk, cfg.split(content), rolls);
    WritePiecesHolds(cfg, s.disk, cfg.split(content), rolls);
    WrittenIsLogged(cfg, s.disk, w.0, s.wal, content, w.1);
    OrphansKeep(cfg, s, cfg.split(content), rolls, LogBlob(s.wal, w.0, content, w.1), bad);
  }

  lemma AbortedPutKeeps(cfg: Config, s: Store, content: Bytes, n: nat, rolls: seq<bool>, bad: Disorder)
    requires ValidConfig(cfg) && SinglePage(cfg) && Inv(cfg, s, bad) && SharedGuard(s)
    ensures Ok(cfg, s, AbortedPutStep(cfg, s, content, n, rolls), bad)
  {
    var pieces := cfg.split(content);
    var some := if n < |pieces| then pieces[..n] else pieces;
    WritePiecesHolds(cfg, s.disk, some, rolls);
    var d' := WritePieces(cfg, s.disk, some, rolls).0;
    ExtendsPagesStay(s.disk, d');
    LogStays(cfg, s.disk, d', s.wal);
    OrphansKeep(cfg, s, some, rolls, s.wal, bad);
    assert s.(disk := d', wal := s.wal) == s.(disk := d');
  }

  // ---- marking a retired page

  lemma FlagKeeps(cfg: Config, s: Store, s': Store, p: nat, l: Loc, bad: Disorder)
    requires cfg.capacity >= 1 && Inv(cfg, s, bad) && SharedGuard(s) && Retired(s, l, bad) && p in s.procs
    requires s' == Flag(s, l).(procs := s'.procs) && s'.procs.Keys == s.procs.Keys
    requires forall q :: q in s.procs && q != p ==> s'.procs[q] == s.procs[q]
    requires s'.procs[p].Marking? || s'.procs[p].Sweeping?
    requires ProcOk(cfg, s.(procs := s'.procs), p, bad)
    ensures Ok(cfg, s, s', bad)
  {
    FlagKeepsRecords(cfg, s.disk.pages, s.idx.chunks, l, bad);
    LogStays(cfg, s.disk, s'.disk, s.wal);
    NothingPending(s');
    var mid := s.(procs := s'.procs);
    NothingPending(mid);
    forall q | q in s'.procs
      ensures ProcOk(cfg, s', q, bad)
    {
      if q == p {
        ProcStays(cfg, mid, s', q, bad);
      } else {
        ProcStays(cfg, s, s', q, bad);
      }
    }
  }

  lemma MarkDupKeeps(cfg: Config, s: Store, p: nat, bad: Disorder)
    requires cfg.capacity >= 1 && Inv(cfg, s, bad) && Enabled(s, MarkDup(p))
    ensures Ok(cfg, s, MarkDupStep(s, p), bad)
  {
    var s' := MarkDupStep(s, p);
    var dups := s.procs[p].dups;
    assert ProcOk(cfg, s, p, bad);
    MarkingIsShared(cfg, s, p, bad);
    if dups == [] {
      RemovedProcKeeps(cfg, s, p, bad);
    } else {
      NothingPending(s);
      NothingPending(s.(procs := s'.procs));
      FlagKeeps(cfg, s, s', p, dups[0], bad);
    }
  }

  /** A put or a sweep under way means the exclusive guard is not held. */
  lemma MarkingIsShared(cfg: Config, s: Store, p: nat, bad: Disorder)
    requires cfg.capacity >= 1 && Inv(cfg, s, bad) && p in s.procs && (s.procs[p].Marking? || s.procs[p].Sweeping?)
    ensures SharedGuard(s)
  {
    forall q | q in s.procs
      ensures s.procs[q].Marking? || s.procs[q].Sweeping?
    {
      assert ProcOk(cfg, s, q, bad);
    }
  }

  lemma RemovedProcKeeps(cfg: Config, s: Store, p: nat, bad: Disorder)
    requires cfg.capacity >= 1 && Inv(cfg, s, bad) && SharedGuard(s)
    ensures Ok(cfg, s, s.(procs := s.procs - {p}), bad)
  {
    var s' := s.(procs := s.procs - {p});
    NothingPending(s');
    forall q | q in s'.procs
      ensures ProcOk(cfg, s', q, bad)
    {
      ProcStays(cfg, s, s', q, bad);
    }
  }

  // ---- phase 1

  lemma MarkPageKeeps(cfg: Config, s: Store, p: nat, bad: Disorder)
    requires cfg.capacity >= 1 && Inv(cfg, s, bad) && Enabled(s, MarkPage(p))
    ensures Ok(cfg, s, MarkPageStep(s, p), bad)
  {
    var s' := MarkPageStep(s, p);
    assert ProcOk(cfg, s, p, bad);
    MarkingIsShared(cfg, s, p, bad);
    NothingPending(s.(procs := s'.procs));
    FlagKeeps(cfg, s, s', p, s.procs[p].verdict.value, bad);
  }

  /** Steps that only change what one sweeping operation remembers. */
  lemma ProcUpdateKeeps(cfg: Config, s: Store, s': Store, p: nat, bad: Disorder)
    requires cfg.capacity >= 1 && Inv(cfg, s, bad) && SharedGuard(s)
    requires s' == s.(procs := s'.procs) && p in s'.procs && s'.procs[p].Sweeping?
    requires forall q :: q in s'.procs && q != p ==> q in s.procs && s'.procs[q] == s.procs[q]
    requires s'.procs[p].verdict.None?
    requires forall i :: 0 <= i < |s'.procs[p].queue| ==>
      Queued(s.disk.pages, s'.procs[p].queue[i].0, s'.procs[p].queue[i].1)
    ensures Ok(cfg, s, s', bad)
  {
    NothingPending(s');
    forall q | q in s'.procs
      ensures ProcOk(cfg, s', q, bad)
    {
      if q != p {
        ProcStays(cfg, s, s', q, bad);
      }
    }
  }

  lemma ScanKeeps(cfg: Config, s: Store, p: nat, loc: Loc, bad: Disorder)
    requires cfg.capacity >= 1 && Inv(cfg, s, bad) && Enabled(s, Scan(p, loc))
    ensures Ok(cfg, s, ScanStep(s, p, loc), bad)
  {
    assert ProcOk(cfg, s, p, bad);
    MarkingIsShared(cfg, s, p, bad);
    var s' := ScanStep(s, p, loc);
    NothingPending(s');
    forall q | q in s'.procs
      ensures ProcOk(cfg, s', q, bad)
    {
      if q != p {
        ProcStays(cfg, s, s', q, bad);
      }
    }
  }

  /**
   The reap transaction's verdict: a queued page it calls safe is in no
   record's span afterwards. This is where comparing the location matters.
   */
  lemma SafeMeansClear(cfg: Config, pages: Pages, chunks: ChunkTable, id: ChunkId, l: Loc, bad: Disorder)
    requires cfg.capacity >= 1 && RecordsHoldBut(cfg, pages, chunks, bad) && WholePages(cfg, pages) && Queued(pages, id, l)
    requires ReapPage(chunks, id, l).safe
    ensures ClearBut(ReapPage(chunks, id, l).chunks, l, bad)
  {
    var after := ReapPage(chunks, id, l).chunks;
    SlicesJoin(id.content, cfg.capacity);
    forall c | c in after && c !in bad.places
      ensures l !in Span(after[c].loc, after[c].pageCount)
    {
      if c == id {
        assert after[c].pageCount == 1 && after[c].loc != l;
      } else {
        assert Holds(cfg, pages, c, chunks[c]);
      }
    }
  }

  lemma ReapKeeps(cfg: Config, s: Store, p: nat, bad: Disorder)
    requires cfg.capacity >= 1 && Inv(cfg, s, bad) && Enabled(s, ReapTx(p))
    ensures Ok(cfg, s, ReapStep(s, p), bad)
  {
    var s' := ReapStep(s, p);
    assert ProcOk(cfg, s, p, bad);
    MarkingIsShared(cfg, s, p, bad);
    var (id, l) := s.procs[p].queue[0];
    ReapKeepsGaps(s.idx, id, l, bad.counts);
    KeptGapsStaySolvent(s.idx, s'.idx, bad.counts);
    assert Queued(s.disk.pages, id, l);
    if ReapPage(s.idx.chunks, id, l).safe {
      SafeMeansClear(cfg, s.disk.pages, s.idx.chunks, id, l, bad);
    }
    NothingPending(s');
    forall q | q in s'.procs
      ensures ProcOk(cfg, s', q, bad)
    {
      if q != p {
        ProcStays(cfg, s, s', q, bad);
      }
    }
  }

  // ---- deleting and renaming, which hold no namespace guard

  /** Steps that only move counts, refs and manifests keep the rest, relocation or not. */
  lemma TableStepKeeps(cfg: Config, s: Store, idx': IndexState, bad: Disorder)
    requires cfg.capacity >= 1 && Inv(cfg, s, bad)
    requires KeepsGapsBut(s.idx, idx', bad.counts) && ManifestsFixed(cfg, idx'.blobs) && SameRecords(s.idx.chunks, idx'.chunks)
    requires forall c :: CountOf(idx'.chunks, c) <= CountOf(s.idx.chunks, c)
    ensures Ok(cfg, s, s.(idx := idx'), bad)
  {
    var s' := s.(idx := idx');
    SameRecordsHold(cfg, s.disk.pages, s.idx.chunks, idx'.chunks, bad);
    KeptGapsStaySolvent(s.idx, idx', bad.counts);
    forall q | q in s'.procs
      ensures ProcOk(cfg, s', q, bad)
    {
      assert ProcOk(cfg, s, q, bad);
      if s.procs[q].Relocating? {
        RelocationStays(cfg, s, idx', s.procs[q], bad);
      }
    }
  }

  lemma RelocationStays(cfg: Config, s: Store, idx': IndexState, proc: Proc, bad: Disorder)
    requires cfg.capacity >= 1 && proc.Relocating? && RelocationOk(cfg, s, proc, bad)
    requires SameRecords(s.idx.chunks, idx'.chunks)
    requires forall c :: CountOf(idx'.chunks, c) <= CountOf(s.idx.chunks, c)
    ensures RelocationOk(cfg, s.(idx := idx'), proc, bad)
  {
    forall c | c in idx'.chunks && c !in bad.places && idx'.chunks[c].loc.seg == proc.oldSeg
      ensures HasEntry(proc.todo, c)
    {
      assert idx'.chunks[c] == s.idx.chunks[c].(refCount := idx'.chunks[c].refCount);
    }
  }

  lemma DeleteKeeps(cfg: Config, s: Store, key: Key, bad: Disorder)
    requires cfg.capacity >= 1 && Inv(cfg, s, bad)
    ensures Ok(cfg, s, Step(cfg, s, Delete(key)), bad)
  {
    DeleteKeepsGaps(s.idx, cfg.ns, key, bad.counts);
    var k := (cfg.ns, key);
    if k in s.idx.refs {
      RefIsCounted(s.idx, k);
      DecChunksCounts(s.idx.chunks, s.idx.blobs[s.idx.refs[k].blobId].chunkIds);
      TableStepKeeps(cfg, s, CommitDelete(s.idx, cfg.ns, key).value, bad);
    }
  }

  lemma RenameKeeps(cfg: Config, s: Store, oldKey: Key, newKey: Key, bad: Disorder)
    requires cfg.capacity >= 1 && Inv(cfg, s, bad) && Enabled(s, Rename(oldKey, newKey))
    ensures Ok(cfg, s, Step(cfg, s, Rename(oldKey, newKey)), bad)
  {
    RenameKeepsGaps(s.idx, cfg.ns, oldKey, newKey, bad.counts);
    if CommitRenameRef(s.idx, cfg.ns, oldKey, newKey).Ok? {
      TableStepKeeps(cfg, s, CommitRenameRef(s.idx, cfg.ns, oldKey, newKey).value, bad);
    }
  }

  lemma PurgeKeeps(cfg: Config, s: Store, id: BlobId, bad: Disorder)
    requires cfg.capacity >= 1 && Inv(cfg, s, bad)
    ensures Ok(cfg, s, Step(cfg, s, Purge(id)), bad)
  {
    PurgeKeepsGaps(s.idx, id, bad.counts);
    TableStepKeeps(cfg, s, PurgeBlob(s.idx, id), bad);
  }

  lemma ReconcileKeeps(cfg: Config, s: Store, bytes: nat, count: nat, bad: Disorder)
    requires cfg.capacity >= 1 && Inv(cfg, s, bad)
    ensures Ok(cfg, s, Step(cfg, s, Reconcile(bytes, count)), bad)
  {
    var stats := ReconcileDeadStats(s.idx.stats, cfg.ns, bytes, count);
    StatsKeepGaps(s.idx, stats, bad.counts);
    TableStepKeeps(cfg, s, s.idx.(stats := stats), bad);
  }

  // ---- phase 2

  /** A new segment with pages in front: nothing existing moves. */
  lemma NewSegmentExtends(d: Disk, n: nat, more: Pages)
    requires ValidDisk(d) && more.Keys == Span(Loc(d.nextSeg, 0), n)
    ensures var d' := d.(pages := d.pages + more, ends := d.ends[d.nextSeg := n], nextSeg := d.nextSeg + 1);
            ValidDisk(d') && Extends(d, d')
  {
  }

  /** A copied page holds its chunk under the entry RewriteSegment returns for it. */
  lemma CopyHolds(cfg: Config, pages: Pages, page: Page, at: Loc)
    requires cfg.capacity >= 1 && at in pages && pages[at] == page && !page.deleted
    requires page.data == page.id.content && |page.data| <= cfg.capacity && page.crc == cfg.crc(page.data)
    ensures Holds(cfg, pages, page.id, CopiedEntry(cfg, page, at))
  {
    SlicesJoin(page.data, cfg.capacity);
    assert Slices(page.data, cfg.capacity) == [page.data];
  }

  lemma CopiesWhole(cfg: Config, pages: Pages, copies: Pages)
    requires WholePages(cfg, pages) && forall l :: l in copies ==> exists k :: k in pages && copies[l] == pages[k]
    ensures WholePages(cfg, pages + copies)
  {
  }

  lemma CopiedPages(cfg: Config, pages: Pages, seg: nat, newSeg: nat, live: seq<nat>)
    requires cfg.capacity >= 1 && WholePages(cfg, pages)
    requires forall i :: 0 <= i < |live| ==> Loc(seg, live[i]) in pages && !pages[Loc(seg, live[i])].deleted
    ensures var all := pages + Copied(pages, seg, newSeg, live);
            var entries := CopiedEntries(cfg, pages, seg, newSeg, live);
            && WholePages(cfg, all)
            && (forall i :: 0 <= i < |entries| ==> Holds(cfg, all, entries[i].chunkId, entries[i]))
  {
    var all := pages + Copied(pages, seg, newSeg, live);
    CopiesWhole(cfg, pages, Copied(pages, seg, newSeg, live));
    var entries := CopiedEntries(cfg, pages, seg, newSeg, live);
    forall i | 0 <= i < |entries|
      ensures Holds(cfg, all, entries[i].chunkId, entries[i])
    {
      assert Loc(newSeg, i) in Span(Loc(newSeg, 0), |live|);
      CopyHolds(cfg, all, pages[Loc(seg, live[i])], Loc(newSeg, i));
    }
  }

  /** Every live page of the segment has an entry under its chunk. */
  lemma CopiesCover(cfg: Config, pages: Pages, seg: nat, n: nat, newSeg: nat, off: nat)
    requires off < n && Live(pages, Loc(seg, off))
    ensures HasEntry(CopiedEntries(cfg, pages, seg, newSeg, LivePages(pages, seg, n)), pages[Loc(seg, off)].id)
  {
    var live := LivePages(pages, seg, n);
    var i :| 0 <= i < |live| && live[i] == off;
    var todo := CopiedEntries(cfg, pages, seg, newSeg, live);
    assert todo[i] == CopiedEntry(cfg, pages[Loc(seg, live[i])], Loc(newSeg, i));
  }

  /** Only pages of the new segment become destinations. */
  lemma RewriteRetires(cfg: Config, s: Store, p: nat, seg: nat, bad: Disorder)
    requires cfg.capacity >= 1 && Enabled(s, Rewrite(p, seg)) && Extends(s.disk, RewriteStep(cfg, s, p, seg).disk)
    requires s.procs.Keys == {p}
    ensures RetiredStays(s, RewriteStep(cfg, s, p, seg), bad)
  {
    var s' := RewriteStep(cfg, s, p, seg);
    var todo := s'.procs[p].todo;
    forall l | Retired(s, l, bad)
      ensures !Pending(s'.procs, l)
    {
      assert l.seg < s.disk.nextSeg;
      assert forall i :: 0 <= i < |todo| ==> todo[i].loc.seg == s.disk.nextSeg;
      assert !Destined(todo, l);
    }
  }

  lemma RewriteRelocation(cfg: Config, s: Store, p: nat, seg: nat, bad: Disorder)
    requires cfg.capacity >= 1 && Inv(cfg, s, bad) && Enabled(s, Rewrite(p, seg))
    ensures var s' := RewriteStep(cfg, s, p, seg);
            WholePages(cfg, s'.disk.pages) && RelocationOk(cfg, s', s'.procs[p], bad)
  {
    var s' := RewriteStep(cfg, s, p, seg);
    var d := s.disk;
    var todo := s'.procs[p].todo;
    CopiedPages(cfg, d.pages, seg, d.nextSeg, LivePages(d.pages, seg, d.ends[seg]));
    forall c | c in s.idx.chunks && c !in bad.places && s.idx.chunks[c].loc.seg == seg
      ensures HasEntry(todo, c)
    {
      var l := s.idx.chunks[c].loc;
      assert Holds(cfg, d.pages, c, s.idx.chunks[c]) && l in Span(l, s.idx.chunks[c].pageCount);
      CopiesCover(cfg, d.pages, seg, d.ends[seg], d.nextSeg, l.off);
    }
  }

  lemma RewriteDisk(cfg: Config, s: Store, p: nat, seg: nat)
    requires ValidDisk(s.disk) && Enabled(s, Rewrite(p, seg))
    ensures var d' := RewriteStep(cfg, s, p, seg).disk; ValidDisk(d') && Extends(s.disk, d')
  {
    var d := s.disk;
    var live := LivePages(d.pages, seg, d.ends[seg]);
    var more := Copied(d.pages, seg, d.nextSeg, live);
    NewSegmentExtends(d, |live|, more);
    assert RewriteStep(cfg, s, p, seg).disk
        == d.(pages := d.pages + more, ends := d.ends[d.nextSeg := |live|], nextSeg := d.nextSeg + 1);
  }

  lemma RewriteKeeps(cfg: Config, s: Store, p: nat, seg: nat, bad: Disorder)
    requires cfg.capacity >= 1 && Inv(cfg, s, bad) && Enabled(s, Rewrite(p, seg))
    ensures Ok(cfg, s, RewriteStep(cfg, s, p, seg), bad)
  {
    var s' := RewriteStep(cfg, s, p, seg);
    assert ProcOk(cfg, s, p, bad);
    RewriteDisk(cfg, s, p, seg);
    ExtendsPagesStay(s.disk, s'.disk);
    LogStays(cfg, s.disk, s'.disk, s.wal);
    RecordsHoldExtends(cfg, s.disk, s'.disk, s.idx.chunks, bad);
    RewriteRetires(cfg, s, p, seg, bad);
    RewriteRelocation(cfg, s, p, seg, bad);
    LoneRelocation(cfg, s', p, bad);
  }

  /** A lone operation may change its memory as long as its destinations stay. */
  lemma SameDestinations(s: Store, p: nat, proc: Proc, bad: Disorder)
    requires s.procs.Keys == {p} && s.procs[p].Relocating?
    requires proc.Relocating? ==> proc.todo == s.procs[p].todo
    ensures RetiredStays(s, s.(procs := s.procs[p := proc]), bad)
  {
    forall l | Retired(s, l, bad)
      ensures !Pending(s.procs[p := proc], l)
    {
      assert !Destined(s.procs[p].todo, l);
    }
  }

  lemma FetchKeeps(cfg: Config, s: Store, p: nat, bad: Disorder)
    requires cfg.capacity >= 1 && Inv(cfg, s, bad) && Enabled(s, Fetch(p))
    ensures Ok(cfg, s, FetchStep(s, p), bad)
  {
    var proc := s.procs[p];
    var id := proc.todo[0].chunkId;
    assert ProcOk(cfg, s, p, bad);
    if id in s.idx.chunks {
      var proc' := proc.(got := Some(s.idx.chunks[id]));
      SameDestinations(s, p, proc', bad);
      LoneRelocation(cfg, s.(procs := s.procs[p := proc']), p, bad);
    } else {
      assert FetchStep(s, p).procs == map[];
    }
  }

  /** Committing one relocated record raises its gap by what was lost since it was fetched. */
  lemma RelocateGap(s: Store, p: nat)
    requires Enabled(s, Relocate(p))
    ensures var s' := RelocateStep(s, p);
            var id := s.procs[p].todo[0].chunkId;
            && Gap(s'.idx, id) == Gap(s.idx, id) + s.procs[p].got.value.refCount - CountOf(s.idx.chunks, id)
            && (forall c :: c != id ==> Gap(s'.idx, c) == Gap(s.idx, c))
  {
  }

  lemma RelocateIndex(cfg: Config, s: Store, p: nat, bad: Disorder)
    requires cfg.capacity >= 1 && Inv(cfg, s, bad) && Enabled(s, Relocate(p))
    ensures var s' := RelocateStep(s, p);
            SolventBut(s'.idx, bad.counts) && RecordsHoldBut(cfg, s'.disk.pages, s'.idx.chunks, bad)
  {
    var s' := RelocateStep(s, p);
    var e := s.procs[p].todo[0];
    assert ProcOk(cfg, s, p, bad);
    assert Holds(cfg, s.disk.pages, e.chunkId, e) && e.ns == cfg.ns;
    forall b
      ensures RefsTo(s'.idx.refs, b) <= BlobCountOf(s'.idx.blobs, b)
    {
      assert RefsTo(s.idx.refs, b) <= BlobCountOf(s.idx.blobs, b);
    }
    forall c | c !in bad.counts
      ensures Gap(s'.idx, c) >= 0
    {
      RelocateGap(s, p);
      assert Gap(s.idx, c) >= 0;
    }
    forall c | c in s'.idx.chunks
      ensures s'.idx.chunks[c].ns == cfg.ns && (c !in bad.places ==> Holds(cfg, s'.disk.pages, c, s'.idx.chunks[c]))
    {
      if c != e.chunkId && c !in bad.places {
        assert Holds(cfg, s.disk.pages, c, s.idx.chunks[c]);
      }
    }
  }

  lemma RelocateCovers(todo: seq<ChunkEntry>, c: ChunkId)
    requires todo != [] && todo[0].chunkId != c && HasEntry(todo, c)
    ensures HasEntry(todo[1..], c)
  {
    var i :| 0 <= i < |todo| && todo[i].chunkId == c;
    assert todo[1..][i - 1] == todo[i];
  }

  lemma RelocateKeeps(cfg: Config, s: Store, p: nat, bad: Disorder)
    requires cfg.capacity >= 1 && Inv(cfg, s, bad) && Enabled(s, Relocate(p))
    ensures Ok(cfg, s, RelocateStep(s, p), bad)
  {
    var s' := RelocateStep(s, p);
    var proc := s.procs[p];
    assert ProcOk(cfg, s, p, bad);
    RelocateIndex(cfg, s, p, bad);
    RelocateRetires(cfg, s, p, bad);
    forall c | c in s'.idx.chunks && c !in bad.places && s'.idx.chunks[c].loc.seg == proc.oldSeg
      ensures HasEntry(proc.todo[1..], c)
    {
      assert proc.todo[0].loc.seg == proc.newSeg;
      assert c in s.idx.chunks && s.idx.chunks[c].loc.seg == proc.oldSeg;
      RelocateCovers(proc.todo, c);
    }
    LoneRelocation(cfg, s', p, bad);
  }

  lemma DestinedTail(todo: seq<ChunkEntry>, l: Loc)
    requires todo != []
    ensures Destined(todo, l) <==> todo[0].loc == l || Destined(todo[1..], l)
  {
    if Destined(todo, l) && todo[0].loc != l {
      var i :| 0 <= i < |todo| && todo[i].loc == l;
      assert todo[1..][i - 1].loc == l;
    }
  }

  /** The entry's destination was pending; nothing else becomes a location. */
  lemma RelocateRetires(cfg: Config, s: Store, p: nat, bad: Disorder)
    requires cfg.capacity >= 1 && Inv(cfg, s, bad) && Enabled(s, Relocate(p))
    ensures RetiredStays(s, RelocateStep(s, p), bad)
  {
    var s' := RelocateStep(s, p);
    var todo := s.procs[p].todo;
    assert ProcOk(cfg, s, p, bad);
    var e := todo[0];
    assert Holds(cfg, s.disk.pages, e.chunkId, e);
    assert e.pageCount == 1 by {
      assert e.loc in Span(e.loc, e.pageCount);
      assert s.disk.pages[e.loc].id == e.chunkId;
      SlicesJoin(e.chunkId.content, cfg.capacity);
    }
    forall l | Retired(s, l, bad)
      ensures ClearBut(s'.idx.chunks, l, bad) && !Pending(s'.procs, l)
    {
      DestinedTail(todo, l);
      assert !Destined(todo, l);
    }
  }

  /** Removing a sealed segment that is not the newest leaves a valid disk and un-uses no position. */
  lemma DropDisk(cfg: Config, d: Disk, seg: nat)
    requires ValidDisk(d) && WholePages(cfg, d.pages) && d.active != Some(seg) && seg < d.nextSeg - 1
    ensures var d' := WithoutSegment(d, seg);
            ValidDisk(d') && WholePages(cfg, d'.pages) && forall l :: Used(d, l) ==> Used(d', l)
  {
  }

  lemma DropHolds(cfg: Config, d: Disk, seg: nat, c: ChunkId, rec: ChunkEntry)
    requires cfg.capacity >= 1 && Holds(cfg, d.pages, c, rec) && rec.loc.seg != seg
    ensures Holds(cfg, WithoutSegment(d, seg).pages, c, rec)
  {
    assert rec.loc in Span(rec.loc, rec.pageCount);
  }

  /** When the old segment goes, every record has left it. */
  lemma DropSegmentKeeps(cfg: Config, s: Store, p: nat, bad: Disorder)
    requires cfg.capacity >= 1 && Inv(cfg, s, bad) && Enabled(s, DropSegment(p))
    ensures Ok(cfg, s, DropSegmentStep(s, p), bad)
    ensures forall c :: c in s.idx.chunks && c !in bad.places ==> s.idx.chunks[c].loc.seg != s.procs[p].oldSeg
  {
    var s' := DropSegmentStep(s, p);
    assert ProcOk(cfg, s, p, bad);
    var seg := s.procs[p].oldSeg;
    DropDisk(cfg, s.disk, seg);
    LogDropped(cfg, s.disk, s.wal, seg);
    LogStays(cfg, s.disk, s'.disk, s'.wal);
    forall c | c in s.idx.chunks && c !in bad.places
      ensures s.idx.chunks[c].loc.seg != seg
      ensures Holds(cfg, s'.disk.pages, c, s.idx.chunks[c])
    {
      assert !HasEntry([], c);
      DropHolds(cfg, s.disk, seg, c, s.idx.chunks[c]);
    }
    NothingIn(s, s', p, bad);
    assert s'.procs.Keys == {p};
  }

  lemma NothingIn(s: Store, s': Store, p: nat, bad: Disorder)
    requires s'.idx == s.idx && (forall l :: Used(s.disk, l) ==> Used(s'.disk, l))
    requires s'.procs == s.procs[p := Exclusive] && s.procs.Keys == {p}
    ensures RetiredStays(s, s', bad)
  {
    forall l
      ensures !Pending(s'.procs, l)
    {
    }
  }

  // ---- all steps

  lemma StepKeeps(cfg: Config, s: Store, a: Action, bad: Disorder)
    requires ValidConfig(cfg) && SinglePage(cfg) && Inv(cfg, s, bad) && Enabled(s, a) && !a.Crash?
    ensures Ok(cfg, s, Step(cfg, s, a), bad)
  {
    match a
    case Put(p, key, content, rolls) => PutKeeps(cfg, s, p, key, content, rolls, bad);
    case RejectedPut(content, rolls) => RejectedPutKeeps(cfg, s, content, rolls, bad);
    case AbortedPut(content, n, rolls) => AbortedPutKeeps(cfg, s, content, n, rolls, bad);
    case MarkDup(p) => MarkDupKeeps(cfg, s, p, bad);
    case Delete(key) => DeleteKeeps(cfg, s, key, bad);
    case Rename(o, n) => RenameKeeps(cfg, s, o, n, bad);
    case BeginSweep(p) => ProcUpdateKeeps(cfg, s, Step(cfg, s, a), p, bad);
    case Scan(p, loc) => ScanKeeps(cfg, s, p, loc, bad);
    case ReapTx(p) => ReapKeeps(cfg, s, p, bad);
    case MarkPage(p) => MarkPageKeeps(cfg, s, p, bad);
    case EndSweep(p) =>
      MarkingIsShared(cfg, s, p, bad);
      RemovedProcKeeps(cfg, s, p, bad);
    case Purge(id) => PurgeKeeps(cfg, s, id, bad);
    case Reconcile(bytes, count) => ReconcileKeeps(cfg, s, bytes, count, bad);
    case BeginExclusive(p) =>
    case Rewrite(p, seg) => RewriteKeeps(cfg, s, p, seg, bad);
    case Fetch(p) => FetchKeeps(cfg, s, p, bad);
    case Relocate(p) => RelocateKeeps(cfg, s, p, bad);
    case DropSegment(p) => DropSegmentKeeps(cfg, s, p, bad);
    case EndExclusive(p) => assert ProcOk(cfg, s, p, bad);
  }
}
