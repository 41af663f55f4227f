/**
 Keys after the store has been opened again: which ones read, and what a put that
 was cut off by the crash turns into. For chunks of any number of pages.
 */
module Recovery {
  import opened Base
  import opened Records
  import opened Disk
  import opened IndexSpec
  import opened DoubleEntry
  import opened ReplaySpec
  import opened Replay
  import opened StoreMachine
  import opened StoreInvariant
  import opened StoreSteps
  import opened ReopenSpec
  import opened Reopening
  import opened StoreRefinement
  import opened SweepLedger

  // ---- reading chunks of which some are not there

  predicate Unreadable(r: Result<Bytes, ReadError>) {
    r == Err(Missing) || r == Err(Deleted)
  }

  lemma {:induction false} ReadPagesFail(pages: Pages, from: Loc, n: nat, l: Loc)
    requires l in Span(from, n) && !Live(pages, l)
    ensures Unreadable(ReadPages(pages, from, n))
    decreases n
  {
    if l != from && Live(pages, from) {
      ReadPagesFail(pages, Loc(from.seg, from.off + 1), n - 1, l);
    }
  }

  /** A logged chunk reads back exactly if all its pages are there and unflagged. */
  lemma LoggedChunkReadsIff(cfg: Config, d: Disk, e: ChunkEntry)
    requires cfg.capacity >= 1 && ChunkLogged(cfg, d, e)
    ensures if Intact(d.pages, e) then ReadChunk(cfg, d.pages, e) == Ok(e.chunkId.content)
            else Unreadable(ReadChunk(cfg, d.pages, e))
  {
    LoggedHoldsIff(cfg, d, e);
    if Intact(d.pages, e) {
      HeldChunkReads(cfg, d.pages, e.chunkId, e);
    } else {
      var l :| l in Span(e.loc, e.pageCount) && !Live(d.pages, l);
      ReadPagesFail(d.pages, e.loc, e.pageCount, l);
    }
  }

  /** The chunk has a record, and it holds unless the chunk is lost. */
  predicate Found(cfg: Config, s: Store, c: ChunkId, lost: set<ChunkId>)
    requires cfg.capacity >= 1
  {
    c in s.idx.chunks
    && if c in lost then Unreadable(ReadChunk(cfg, s.disk.pages, s.idx.chunks[c]))
       else Holds(cfg, s.disk.pages, c, s.idx.chunks[c])
  }

  /** The content comes out exactly if every chunk holds. */
  lemma {:induction false} ReadAllIff(cfg: Config, s: Store, pieces: seq<Bytes>, lost: set<ChunkId>)
    requires cfg.capacity >= 1 && forall c :: c in PieceIds(pieces) ==> Found(cfg, s, c, lost)
    ensures var r := ReadAll(cfg, s, PieceIds(pieces));
            if forall c :: c in PieceIds(pieces) ==> c !in lost then r == Ok(Flatten(pieces))
            else r == Err(Read(Missing)) || r == Err(Read(Deleted))
    decreases |pieces|
  {
    if pieces != [] {
      var id := PieceIds(pieces)[0];
      assert Found(cfg, s, id, lost);
      assert PieceIds(pieces) == [id] + PieceIds(pieces[1..]);
      ReadAllIff(cfg, s, pieces[1..], lost);
      if id !in lost {
        HeldChunkReads(cfg, s.disk.pages, id, s.idx.chunks[id]);
      }
    }
  }

  /** Every chunk of the content that replay registers is where the log says. */
  predicate WellPlaced(cfg: Config, s: Store, content: Bytes) {
    forall c :: c in PieceIds(cfg.split(content)) ==> !Misplaced(s, c)
  }

  /** In `s'` the chunk has a record, and it holds unless reopening `s` misplaced it. */
  predicate Resolves(cfg: Config, s: Store, s': Store, c: ChunkId)
    requires cfg.capacity >= 1
  {
    c in s'.idx.chunks
    && if Misplaced(s, c) then Unreadable(ReadChunk(cfg, s'.disk.pages, s'.idx.chunks[c]))
       else Holds(cfg, s'.disk.pages, c, s'.idx.chunks[c])
  }

  function MisplacedOf(cfg: Config, s: Store, content: Bytes): set<ChunkId> {
    set c | c in PieceIds(cfg.split(content)) && Misplaced(s, c)
  }

  /** A key whose manifest and chunks are as expected reads as its content exactly if no chunk is misplaced. */
  lemma GetIff(cfg: Config, s: Store, s': Store, key: Key, content: Bytes)
    requires ValidConfig(cfg)
    requires var k := (cfg.ns, key); k in s'.idx.refs && s'.idx.refs[k].blobId == Sha256(content)
    requires Sha256(content) in s'.idx.blobs && s'.idx.blobs[Sha256(content)].chunkIds == PieceIds(cfg.split(content))
    requires forall c :: c in PieceIds(cfg.split(content)) ==> Resolves(cfg, s, s', c)
    ensures var r := Get(cfg, s', key);
            if WellPlaced(cfg, s, content) then r == Ok(content)
            else r == Err(Read(Missing)) || r == Err(Read(Deleted))
  {
    var lost := MisplacedOf(cfg, s, content);
    forall c | c in PieceIds(cfg.split(content))
      ensures Found(cfg, s', c, lost)
    {
      assert Resolves(cfg, s, s', c);
    }
    ReadAllIff(cfg, s', cfg.split(content), lost);
    assert WellPlaced(cfg, s, content) <==> forall c :: c in PieceIds(cfg.split(content)) ==> c !in lost;
  }

  /** A record that is where the log has its chunk. */
  lemma RecordResolves(cfg: Config, s: Store, s': Store, c: ChunkId, e: ChunkEntry)
    requires cfg.capacity >= 1 && ChunkLogged(cfg, s'.disk, e) && e.chunkId == c
    requires c in s'.idx.chunks && s'.idx.chunks[c] == e.(refCount := s'.idx.chunks[c].refCount)
    requires Intact(s'.disk.pages, e) <==> !Misplaced(s, c)
    ensures Resolves(cfg, s, s', c)
  {
    LoggedChunkReadsIff(cfg, s'.disk, e);
    LoggedHoldsIff(cfg, s'.disk, e);
    HoldsWhateverCount(cfg, s'.disk.pages, c, e, s'.idx.chunks[c].refCount);
  }

  lemma RegisteredResolves(cfg: Config, s: Store, c: ChunkId)
    requires cfg.capacity >= 1 && LogOk(cfg, s.disk, s.wal) && c in NewIds(s.idx, Log(s)) && ValidDisk(s.disk)
    ensures Resolves(cfg, s, CrashStep(s), c)
  {
    ReopenKeepsIds(s.disk);
    RegisteredRecord(cfg, s, c);
    ExtendsPagesStay(s.disk, Reopen(s.disk));
    ChunkStays(cfg, s.disk, Reopen(s.disk), LastOf(NewChunks(s.idx.blobs, Log(s)), c));
    RecordResolves(cfg, s, CrashStep(s), c, LastOf(NewChunks(s.idx.blobs, Log(s)), c));
  }

  /**
   A key that has a ref when the store goes down reads as its content after the next
   open exactly if no chunk of it is also in the log of a blob without a manifest,
   with pages there that are flagged or gone.
   */
  lemma GetAfterReopenIff(cfg: Config, s: Store, key: Key, bad: Disorder)
    requires ValidConfig(cfg) && Openable(cfg, s, bad) && (cfg.ns, key) in s.idx.refs
    requires Spared(cfg, s.idx.refs[(cfg.ns, key)].blobId.content, bad)
    ensures var content := s.idx.refs[(cfg.ns, key)].blobId.content;
            var r := Get(cfg, CrashStep(s), key);
            if WellPlaced(cfg, s, content) then r == Ok(content)
            else r == Err(Read(Missing)) || r == Err(Read(Deleted))
  {
    var k := (cfg.ns, key);
    var s' := CrashStep(s);
    var b := s.idx.refs[k].blobId;
    ReferencedBlobIsWhole(s.idx, k, bad.counts);
    ReopenKeepsIds(s.disk);
    ReplayManifests(s.idx, Log(s));
    OldManifest(s.idx, Log(s), b);
    forall c | c in PieceIds(cfg.split(b.content))
      ensures Resolves(cfg, s, s', c)
    {
      if c in NewIds(s.idx, Log(s)) {
        RegisteredResolves(cfg, s, c);
      } else {
        ReplayedRecord(s.idx, Log(s), c);
        assert c in s.idx.blobs[b].chunkIds;
      }
    }
    GetIff(cfg, s, s', key, b.content);
  }

  // ---- putting after a reopen

  lemma {:induction false} UpsertKeepsRecord(ns: NsId, chunks: ChunkTable, entries: seq<ChunkEntry>, c: ChunkId)
    requires Owned(ns, chunks, c)
    ensures var after := UpsertAll(ns, chunks, entries).chunks;
            Owned(ns, after, c) && after[c].(refCount := 0) == chunks[c].(refCount := 0)
    decreases |entries|
  {
    if entries != [] {
      UpsertKeepsRecord(ns, chunks, entries[..|entries| - 1], c);
    }
  }

  /** A put moves no record the namespace already has. */
  lemma PutKeepsRecord(cfg: Config, s: Store, p: nat, key: Key, content: Bytes, rolls: seq<bool>, c: ChunkId)
    requires cfg.capacity >= 1 && NonNegative(s.idx) && Owned(cfg.ns, s.idx.chunks, c)
    ensures var s' := PutStep(cfg, s, p, key, content, rolls);
            c in s'.idx.chunks && s'.idx.chunks[c] == s.idx.chunks[c].(refCount := s'.idx.chunks[c].refCount)
  {
    var entries := WritePieces(cfg, s.disk, cfg.split(content), rolls).1;
    var ref, blob := RefFor(cfg, key, content, entries), BlobFor(content, entries);
    var before := ReleaseReplaced(s.idx, ref, blob).dec.chunks;
    ReleaseKeepsRecords(s.idx, ref, blob);
    assert before[c].(refCount := 0) == s.idx.chunks[c].(refCount := 0);
    UpsertKeepsRecord(cfg.ns, before, entries, c);
  }

  lemma ReleaseKeepsRecords(idx: IndexState, ref: RefEntry, blob: BlobEntry)
    requires NonNegative(idx)
    ensures SameRecords(idx.chunks, ReleaseReplaced(idx, ref, blob).dec.chunks)
  {
    var prev := Replaced(idx, ref);
    var blobs := AddBlob(idx.blobs, blob);
    if prev.Some? && prev.value.blobId in blobs {
      DecChunksCounts(idx.chunks, blobs[prev.value.blobId].chunkIds);
    }
  }

  /** Writing more pages neither repairs nor damages the ones that have been handed out. */
  lemma IntactStays(cfg: Config, d: Disk, d': Disk, e: ChunkEntry)
    requires cfg.capacity >= 1 && ChunkLogged(cfg, d, e) && Extends(d, d')
    ensures ChunkLogged(cfg, d', e) && (Intact(d.pages, e) <==> Intact(d'.pages, e))
  {
    ExtendsPagesStay(d, d');
    ChunkStays(cfg, d, d', e);
    forall l | l in Span(e.loc, e.pageCount)
      ensures Live(d.pages, l) <==> Live(d'.pages, l)
    {
      assert Used(d, l);
    }
  }

  /** A record that is where the log has its chunk, after a put. */
  lemma AfterPutResolves(cfg: Config, s: Store, s1: Store, p: nat, key: Key, content: Bytes, rolls: seq<bool>,
                         c: ChunkId, e: ChunkEntry)
    requires cfg.capacity >= 1 && NonNegative(s1.idx) && Owned(cfg.ns, s1.idx.chunks, c) && ValidDisk(s1.disk)
    requires ChunkLogged(cfg, s1.disk, e) && e.chunkId == c
    requires s1.idx.chunks[c] == e.(refCount := s1.idx.chunks[c].refCount)
    requires Intact(s1.disk.pages, e) <==> !Misplaced(s, c)
    ensures Resolves(cfg, s, PutStep(cfg, s1, p, key, content, rolls), c)
  {
    var s2 := PutStep(cfg, s1, p, key, content, rolls);
    PutKeepsRecord(cfg, s1, p, key, content, rolls, c);
    WritePiecesHolds(cfg, s1.disk, cfg.split(content), rolls);
    IntactStays(cfg, s1.disk, s2.disk, e);
    RecordResolves(cfg, s, s2, c, e);
  }

  /** A record replay has registered, after a put: still where the log has it. */
  lemma RegisteredAfterPut(cfg: Config, s: Store, p: nat, key: Key, content: Bytes, rolls: seq<bool>, c: ChunkId,
                           bad: Disorder)
    requires cfg.capacity >= 1 && Openable(cfg, s, bad) && c in NewIds(s.idx, Log(s))
    ensures Resolves(cfg, s, PutStep(cfg, CrashStep(s), p, key, content, rolls), c)
  {
    var e := LastOf(NewChunks(s.idx.blobs, Log(s)), c);
    ReopenKeepsIds(s.disk);
    RegisteredRecord(cfg, s, c);
    OpenableAfterCrash(cfg, s, bad);
    ExtendsPagesStay(s.disk, Reopen(s.disk));
    ChunkStays(cfg, s.disk, Reopen(s.disk), e);
    AfterPutResolves(cfg, s, CrashStep(s), p, key, content, rolls, c, e);
  }

  /** Any other chunk of the content: one in order as before, or one just written. */
  lemma OthersAfterPut(cfg: Config, s: Store, s1: Store, p: nat, key: Key, content: Bytes, rolls: seq<bool>, c: ChunkId,
                       bad: Disorder)
    requires cfg.capacity >= 1 && CoreBut(cfg, s1.idx, s1.disk, bad) && SharedGuard(s1)
    requires c in PieceIds(cfg.split(content)) && c !in bad.places && !Misplaced(s, c)
    ensures Resolves(cfg, s, PutStep(cfg, s1, p, key, content, rolls), c)
  {
    PutCore(cfg, s1, p, key, content, rolls, bad);
    PutBinds(cfg, s1, p, key, content, rolls);
  }

  lemma ManifestAfterPut(cfg: Config, s: Store, p: nat, key: Key, content: Bytes, rolls: seq<bool>, bad: Disorder)
    requires cfg.capacity >= 1 && CoreBut(cfg, s.idx, s.disk, bad) && SharedGuard(s)
    ensures var s' := PutStep(cfg, s, p, key, content, rolls);
            && (cfg.ns, key) in s'.idx.refs && s'.idx.refs[(cfg.ns, key)].blobId == Sha256(content)
            && Sha256(content) in s'.idx.blobs
            && s'.idx.blobs[Sha256(content)].chunkIds == PieceIds(cfg.split(content))
  {
    PutCore(cfg, s, p, key, content, rolls, bad);
    PutBinds(cfg, s, p, key, content, rolls);
  }

  lemma ResolvesAfterPut(cfg: Config, s: Store, p: nat, key: Key, content: Bytes, rolls: seq<bool>, c: ChunkId,
                         bad: Disorder)
    requires cfg.capacity >= 1 && Openable(cfg, s, bad) && c in PieceIds(cfg.split(content)) && c !in bad.places
    ensures Resolves(cfg, s, PutStep(cfg, CrashStep(s), p, key, content, rolls), c)
  {
    if c in NewIds(s.idx, Log(s)) {
      RegisteredAfterPut(cfg, s, p, key, content, rolls, c, bad);
    } else {
      OpenableAfterCrash(cfg, s, bad);
      OthersAfterPut(cfg, s, CrashStep(s), p, key, content, rolls, c, BadAfterCrash(s, bad));
    }
  }

  /**
   A put after reopening always succeeds; its key then reads as the content exactly
   if every chunk of it that replay registered is still there. Replay registers
   chunks whose pages compaction has flagged, and the put is deduplicated onto them.
   */
  lemma PutAfterReopenReadsIff(cfg: Config, s: Store, p: nat, key: Key, content: Bytes, rolls: seq<bool>, bad: Disorder)
    requires ValidConfig(cfg) && Openable(cfg, s, bad) && Spared(cfg, content, bad)
    ensures var r := Get(cfg, PutStep(cfg, CrashStep(s), p, key, content, rolls), key);
            if WellPlaced(cfg, s, content) then r == Ok(content)
            else r == Err(Read(Missing)) || r == Err(Read(Deleted))
  {
    var s1 := CrashStep(s);
    var s2 := PutStep(cfg, s1, p, key, content, rolls);
    var bad1 := BadAfterCrash(s, bad);
    OpenableAfterCrash(cfg, s, bad);
    ManifestAfterPut(cfg, s1, p, key, content, rolls, bad1);
    forall c | c in PieceIds(cfg.split(content))
      ensures Resolves(cfg, s, s2, c)
    {
      ResolvesAfterPut(cfg, s, p, key, content, rolls, c, bad);
    }
    GetIff(cfg, s, s2, key, content);
  }

  /** A put binds its key, and every chunk of the content has a record afterwards. */
  lemma PutBinds(cfg: Config, s: Store, p: nat, key: Key, content: Bytes, rolls: seq<bool>)
    requires cfg.capacity >= 1 && ValidDisk(s.disk)
    ensures var s' := PutStep(cfg, s, p, key, content, rolls);
            && (cfg.ns, key) in s'.idx.refs && s'.idx.refs[(cfg.ns, key)].blobId == Sha256(content)
            && Sha256(content) in s'.idx.blobs
            && (forall c :: c in PieceIds(cfg.split(content)) ==> c in s'.idx.chunks)
  {
    var pieces := cfg.split(content);
    var w := WritePieces(cfg, s.disk, pieces, rolls);
    WritePiecesHolds(cfg, s.disk, pieces, rolls);
    EntryIdsArePieceIds(cfg, s.disk, w.0, pieces, w.1);
    var ref, blob := RefFor(cfg, key, content, w.1), BlobFor(content, w.1);
    var rel := ReleaseReplaced(s.idx, ref, blob);
    assert Sha256(content) in AddBlob(s.idx.blobs, blob) && Sha256(content) in rel.blobs;
    forall c | c in PieceIds(pieces)
      ensures c in UpsertAll(cfg.ns, rel.dec.chunks, w.1).chunks
    {
      UpsertCounts(cfg.ns, rel.dec.chunks, w.1, c);
    }
  }

  // ---- a put the crash cut off

  predicate Indexed(blobs: BlobTable, log: seq<Logged>) {
    forall i :: 0 <= i < |log| ==> log[i].blobId in blobs
  }

  /** Entry `e` is the only one of a blob without a manifest. */
  predicate OnlyNew(blobs: BlobTable, log: seq<Logged>, e: Logged) {
    exists n :: 0 <= n < |log| && log[n] == e && Indexed(blobs, log[..n]) && Indexed(blobs, log[n + 1..])
  }

  lemma OnlyNewBefore(blobs: BlobTable, a: seq<Logged>, e: Logged, b: seq<Logged>)
    requires OnlyNew(blobs, a, e) && Indexed(blobs, b)
    ensures OnlyNew(blobs, a + b, e)
  {
    var n :| 0 <= n < |a| && a[n] == e && Indexed(blobs, a[..n]) && Indexed(blobs, a[n + 1..]);
    var log := a + b;
    assert log[..n] == a[..n] && log[n + 1..] == a[n + 1..] + b && log[n] == e;
  }

  lemma OnlyNewLast(blobs: BlobTable, a: seq<Logged>, b: seq<Logged>, e: Logged)
    requires Indexed(blobs, a) && Indexed(blobs, b)
    ensures OnlyNew(blobs, a + (b + [e]), e)
  {
    var log, n := a + (b + [e]), |a| + |b|;
    assert log[..n] == a + b && log[n + 1..] == [] && log[n] == e;
    IndexedConcat(blobs, a, b);
  }

  lemma IndexedConcat(blobs: BlobTable, a: seq<Logged>, b: seq<Logged>)
    requires Indexed(blobs, a) && Indexed(blobs, b)
    ensures Indexed(blobs, a + b)
  {
  }

  /** The whole log with one entry appended to the log of one segment. */
  lemma {:induction false} AppendedIsOnlyNew(blobs: BlobTable, segments: set<nat>, wal: Wals, g: nat, e: Logged, n: nat)
    requires g in segments && forall h :: h in wal ==> Indexed(blobs, wal[h])
    ensures var log := WholeLog(segments, AppendLog(wal, g, e), n);
            if g < n then OnlyNew(blobs, log, e) else Indexed(blobs, log)
  {
    if n > 0 {
      var wal' := AppendLog(wal, g, e);
      var before := WholeLog(segments, wal', n - 1);
      AppendedIsOnlyNew(blobs, segments, wal, g, e, n - 1);
      if n - 1 == g {
        assert WholeLog(segments, wal', n) == before + (SegmentLog(wal, g) + [e]);
        OnlyNewLast(blobs, before, SegmentLog(wal, g), e);
      } else {
        var more := if n - 1 in segments then SegmentLog(wal, n - 1) else [];
        assert WholeLog(segments, wal', n) == before + more;
        if g < n {
          OnlyNewBefore(blobs, before, e, more);
        } else {
          IndexedConcat(blobs, before, more);
        }
      }
    }
  }

  lemma {:induction false} IndexedAddsNothing(blobs: BlobTable, log: seq<Logged>)
    requires Indexed(blobs, log)
    ensures NewChunks(blobs, log) == []
    decreases |log|
  {
    if log != [] {
      IndexedAddsNothing(blobs, log[..|log| - 1]);
    }
  }

  lemma {:induction false} OnlyNewAdds(blobs: BlobTable, log: seq<Logged>, e: Logged)
    requires OnlyNew(blobs, log, e) && e.blobId !in blobs
    ensures NewChunks(blobs, log) == e.chunks
    decreases |log|
  {
    var n :| 0 <= n < |log| && log[n] == e && Indexed(blobs, log[..n]) && Indexed(blobs, log[n + 1..]);
    var init := log[..|log| - 1];
    if n == |log| - 1 {
      IndexedAddsNothing(blobs, init);
      assert forall j :: 0 <= j < n ==> log[j] == log[..n][j];
      assert Replayed(blobs, log, n);
    } else {
      assert init[..n] == log[..n] && init[n + 1..] == log[n + 1..][..|log| - n - 2];
      assert log[|log| - 1] == log[n + 1..][|log| - n - 2];
      OnlyNewAdds(blobs, init, e);
    }
  }

  lemma {:induction false} LengthsAddUp(pieces: seq<Bytes>, entries: seq<ChunkEntry>)
    requires |entries| == |pieces| && forall i :: 0 <= i < |entries| ==> entries[i].length == |pieces[i]|
    ensures TotalLength(entries) == |Flatten(pieces)|
    decreases |pieces|
  {
    if pieces != [] {
      var n := |pieces| - 1;
      LengthsAddUp(pieces[..n], entries[..n]);
      FlattenSnoc(pieces[..n], pieces[n]);
      assert pieces == pieces[..n] + [pieces[n]];
    }
  }

  lemma WritingActivates(cfg: Config, d: Disk, pieces: seq<Bytes>, rolls: seq<bool>)
    requires cfg.capacity >= 1 && pieces != [] && ValidDisk(d)
    ensures var d' := WritePieces(cfg, d, pieces, rolls).0;
            d'.active.Some? && d'.active.value in d'.ends && d'.active.value < d'.nextSeg
  {
    WritePiecesHolds(cfg, d, pieces, rolls);
  }

  /** What the log brings back after a put that got as far as its log entry. */
  lemma InterruptedPutRegisters(cfg: Config, s: Store, content: Bytes, rolls: seq<bool>)
    requires ValidConfig(cfg) && Openable(cfg, s, IN_ORDER) && content != []
    requires Sha256(content) !in s.idx.blobs && forall g :: g in s.wal ==> Indexed(s.idx.blobs, s.wal[g])
    ensures var (d, entries) := WritePieces(cfg, s.disk, cfg.split(content), rolls);
            var s1 := RejectedPutStep(cfg, s, content, rolls);
            && s1.idx == s.idx && s1.disk == d
            && Openable(cfg, s1, IN_ORDER)
            && OnlyNew(s.idx.blobs, Log(s1), Logged(Sha256(content), entries))
            && NewChunks(s.idx.blobs, Log(s1)) == entries
  {
    var pieces := cfg.split(content);
    assert pieces != [];
    var w := WritePieces(cfg, s.disk, pieces, rolls);
    var e := Logged(Sha256(content), w.1);
    WritePiecesHolds(cfg, s.disk, pieces, rolls);
    WritingActivates(cfg, s.disk, pieces, rolls);
    WrittenIsLogged(cfg, s.disk, w.0, s.wal, content, w.1);
    RecordsHoldExtends(cfg, s.disk, w.0, s.idx.chunks, IN_ORDER);
    AppendedIsOnlyNew(s.idx.blobs, w.0.ends.Keys, s.wal, w.0.active.value, e, w.0.nextSeg);
    OnlyNewAdds(s.idx.blobs, Log(RejectedPutStep(cfg, s, content, rolls)), e);
  }

  /** The manifests then: the old ones, and one for the blob that was cut off. */
  lemma OneNewManifest(idx: IndexState, log: seq<Logged>, e: Logged)
    requires OnlyNew(idx.blobs, log, e) && e.blobId !in idx.blobs
    ensures ReplayAll(idx, log).blobs == idx.blobs[e.blobId := Manifest(e)]
  {
    var blobs := ReplayAll(idx, log).blobs;
    var n :| 0 <= n < |log| && log[n] == e && Indexed(idx.blobs, log[..n]) && Indexed(idx.blobs, log[n + 1..]);
    forall j | 0 <= j < |log| && j != n
      ensures log[j].blobId in idx.blobs
    {
      assert log[j] == if j < n then log[..n][j] else log[n + 1..][j - n - 1];
    }
    ReplayManifests(idx, log);
    assert log[n].blobId in blobs;
    forall b | b in blobs && b !in idx.blobs
      ensures b == e.blobId && blobs[b] == Manifest(e)
    {
      var x := NewManifest(idx, log, b);
    }
  }

  /** The chunks a put wrote last are held by their log entry, whatever else there is. */
  lemma JustWrittenIsIntact(cfg: Config, d: Disk, d': Disk, pieces: seq<Bytes>, entries: seq<ChunkEntry>, c: ChunkId)
    requires cfg.capacity >= 1 && Written(cfg, d, d', pieces, entries) && c in EntryIds(entries)
    ensures Holds(cfg, d'.pages, c, LastOf(entries, c)) && Intact(d'.pages, LastOf(entries, c))
  {
    var e := LastOf(entries, c);
    var i :| 0 <= i < |entries| && entries[i] == e;
    assert Holds(cfg, d'.pages, Sha256(pieces[i]), entries[i]);
  }

  /** What the crash cut off is there again: one manifest counted once, and all its bytes. */
  ghost predicate Recovered(cfg: Config, s: Store, s': Store, content: Bytes)
    requires cfg.capacity >= 1
  {
    && s'.idx.refs == s.idx.refs
    && s'.idx.blobs == s.idx.blobs[Sha256(content) := BlobEntry(Sha256(content), PieceIds(cfg.split(content)), |content|, 1)]
    && RecordsHold(cfg, s'.disk.pages, s'.idx.chunks)
    && ReadAll(cfg, s', PieceIds(cfg.split(content))) == Ok(content)
  }

  /** The chunks of the content are pairwise distinct, and no manifest with references lists one. */
  predicate ChunksFree(cfg: Config, blobs: BlobTable, content: Bytes) {
    var ids := PieceIds(cfg.split(content));
    forall c :: c in ids ==> Mult(ids, c) == 1 && Unclaimed(blobs, c)
  }

  lemma RecoveredTables(cfg: Config, s: Store, content: Bytes, rolls: seq<bool>)
    requires ValidConfig(cfg) && Openable(cfg, s, IN_ORDER) && content != []
    requires Sha256(content) !in s.idx.blobs && forall g :: g in s.wal ==> Indexed(s.idx.blobs, s.wal[g])
    ensures var s1 := RejectedPutStep(cfg, s, content, rolls);
            var s' := CrashStep(s1);
            && NewIds(s1.idx, Log(s1)) == PieceIds(cfg.split(content))
            && (forall c :: c in PieceIds(cfg.split(content)) ==> !Misplaced(s1, c))
            && s'.idx.refs == s.idx.refs
            && s'.idx.blobs == s.idx.blobs[Sha256(content) := BlobEntry(Sha256(content), PieceIds(cfg.split(content)), |content|, 1)]
  {
    var pieces := cfg.split(content);
    var w := WritePieces(cfg, s.disk, pieces, rolls);
    var s1 := RejectedPutStep(cfg, s, content, rolls);
    var e := Logged(Sha256(content), w.1);
    WritePiecesHolds(cfg, s.disk, pieces, rolls);
    EntryIdsArePieceIds(cfg, s.disk, w.0, pieces, w.1);
    InterruptedPutRegisters(cfg, s, content, rolls);
    ReplayManifests(s1.idx, Log(s1));
    OneNewManifest(s1.idx, Log(s1), e);
    forall c | c in PieceIds(pieces)
      ensures !Misplaced(s1, c)
    {
      JustWrittenIsIntact(cfg, s.disk, w.0, pieces, w.1, c);
    }
    forall i | 0 <= i < |w.1|
      ensures w.1[i].length == |pieces[i]|
    {
      assert Holds(cfg, w.0.pages, Sha256(pieces[i]), w.1[i]);
    }
    LengthsAddUp(pieces, w.1);
  }

  /** Records of registered chunks that are not misplaced hold, and so do the others. */
  lemma RecordsAfterReopen(cfg: Config, s: Store)
    requires cfg.capacity >= 1 && Openable(cfg, s, IN_ORDER) && forall c :: c in NewIds(s.idx, Log(s)) ==> !Misplaced(s, c)
    ensures RecordsHold(cfg, CrashStep(s).disk.pages, CrashStep(s).idx.chunks)
    ensures forall c :: c in NewIds(s.idx, Log(s)) ==> c in CrashStep(s).idx.chunks
  {
    var s' := CrashStep(s);
    ReopenKeepsIds(s.disk);
    OwnedAfterReplay(cfg, s);
    forall c | c in NewIds(s.idx, Log(s))
      ensures c in s'.idx.chunks && Holds(cfg, s'.disk.pages, c, s'.idx.chunks[c])
    {
      RegisteredRecord(cfg, s, c);
    }
    forall c | c in s'.idx.chunks && c !in NewIds(s.idx, Log(s))
      ensures Holds(cfg, s'.disk.pages, c, s'.idx.chunks[c])
    {
      ReplayedRecord(s.idx, Log(s), c);
    }
  }

  /**
   What the log is for: a put that was cut off between its log entry and its commit
   is there again after the next open, with all its bytes, and nothing else has
   moved. Counts and claims are in order exactly if its chunks are free.
   */
  lemma InterruptedPutIsReplayed(cfg: Config, s: Store, content: Bytes, rolls: seq<bool>)
    requires ValidConfig(cfg) && Openable(cfg, s, IN_ORDER) && content != []
    requires Sha256(content) !in s.idx.blobs && forall g :: g in s.wal ==> Indexed(s.idx.blobs, s.wal[g])
    ensures var s' := CrashStep(RejectedPutStep(cfg, s, content, rolls));
            && Recovered(cfg, s, s', content)
            && (Core(cfg, s'.idx, s'.disk) <==> ChunksFree(cfg, s.idx.blobs, content))
  {
    var s1 := RejectedPutStep(cfg, s, content, rolls);
    var s' := CrashStep(s1);
    var pieces := cfg.split(content);
    InterruptedPutRegisters(cfg, s, content, rolls);
    RecoveredTables(cfg, s, content, rolls);
    RecordsAfterReopen(cfg, s1);
    forall i | 0 <= i < |pieces|
      ensures var c := Sha256(pieces[i]); c in s'.idx.chunks && Holds(cfg, s'.disk.pages, c, s'.idx.chunks[c])
    {
      assert PieceIds(pieces)[i] in NewIds(s1.idx, Log(s1));
    }
    ReadAllJoins(cfg, s', pieces);
    CoreAfterCrashIff(cfg, s1);
    FreeIff(cfg, s1, content);
  }

  lemma FreeIff(cfg: Config, s: Store, content: Bytes)
    requires NewIds(s.idx, Log(s)) == PieceIds(cfg.split(content))
    requires forall c :: c in PieceIds(cfg.split(content)) ==> !Misplaced(s, c)
    ensures Disordered(s) == IN_ORDER <==> ChunksFree(cfg, s.idx.blobs, content)
  {
    var ids := PieceIds(cfg.split(content));
    forall c | c in ids
      ensures c in Disordered(s).counts <==> !(Mult(ids, c) == 1 && Unclaimed(s.idx.blobs, c))
    {
      assert !Misplaced(s, c);
    }
    if !ChunksFree(cfg, s.idx.blobs, content) {
      var c :| c in ids && !(Mult(ids, c) == 1 && Unclaimed(s.idx.blobs, c));
      assert c in Disordered(s).counts;
    }
  }

  // ---- compaction on either side of a reopen

  /** Phase 1 right after replaying any log leaves everything it registered alone. */
  lemma ReplayedSurviveSweep(idx: IndexState, pages: Pages, log: seq<Logged>)
    ensures var s' := ReplayAll(idx, log);
            && (forall c :: c in NewIds(idx, log) ==> c in LiveRecords(s'.chunks))
            && (forall l :: l in pages && pages[l].id in NewIds(idx, log) ==> SweptPages(pages, s'.chunks)[l] == pages[l])
            && (forall i :: 0 <= i < |log| && log[i].blobId !in idx.blobs ==>
                  log[i].blobId in s'.blobs - DeadBlobs(s'.blobs))
  {
    var s' := ReplayAll(idx, log);
    forall c | c in NewIds(idx, log)
      ensures c in s'.chunks && s'.chunks[c].refCount == 1
    {
      ReplayedRecord(idx, log, c);
    }
    ReplayManifests(idx, log);
    forall i | 0 <= i < |log| && log[i].blobId !in idx.blobs
      ensures s'.blobs[log[i].blobId].refCount == 1
    {
      var e := NewManifest(idx, log, log[i].blobId);
    }
  }

  /**
   How pages the log still names come to be flagged: deleting the last ref of a
   blob and sweeping removes its manifest, and flags the pages of exactly those of
   its chunks that were counted for this blob alone.
   */
  lemma DeleteAndSweepFlagsIff(cfg: Config, idx: IndexState, d: Disk, key: Key, l: Loc)
    requires cfg.capacity >= 1 && Core(cfg, idx, d) && (cfg.ns, key) in idx.refs
    requires var b := idx.refs[(cfg.ns, key)].blobId; b in idx.blobs && idx.blobs[b].refCount == 1
    requires l in d.pages && d.pages[l].id in idx.blobs[idx.refs[(cfg.ns, key)].blobId].chunkIds
    ensures var b := idx.refs[(cfg.ns, key)].blobId;
            var deleted := CommitDelete(idx, cfg.ns, key).value;
            var c := d.pages[l].id;
            && b !in Swept(cfg, deleted, d.pages).blobs
            && (SweptPages(d.pages, deleted.chunks)[l].deleted
                <==> d.pages[l].deleted || CountOf(idx.chunks, c) == Mult(idx.blobs[b].chunkIds, c))
  {
    var b := idx.refs[(cfg.ns, key)].blobId;
    ReferencedBlobIsWhole(idx, (cfg.ns, key), {});
    DecChunksCounts(idx.chunks, idx.blobs[b].chunkIds);
    var c, deleted := d.pages[l].id, CommitDelete(idx, cfg.ns, key).value;
    assert CountOf(idx.chunks, c) >= Mult(idx.blobs[b].chunkIds, c);
    assert CountOf(deleted.chunks, c) == CountOf(idx.chunks, c) - Mult(idx.blobs[b].chunkIds, c);
  }
}
