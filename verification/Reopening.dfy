/**
 Opening a store again: which chunks replay of the log leaves in order, exactly,
 and what that means for reading and writing keys afterwards. Nothing here
 depends on how many pages a chunk has.
 */
module Reopening {
  import opened Base
  import opened Records
  import opened Disk
  import opened IndexSpec
  import opened DoubleEntry
  import opened ReplaySpec
  import opened Replay
  import opened StoreMachine
  import opened StoreInvariant
  import opened StoreSteps
  import opened ReopenSpec

  // ---- records

  lemma HoldsWhateverCount(cfg: Config, pages: Pages, c: ChunkId, e: ChunkEntry, n: int)
    requires cfg.capacity >= 1
    ensures Holds(cfg, pages, c, e.(refCount := n)) <==> Holds(cfg, pages, c, e)
  {
  }

  lemma RecordGoodIff(cfg: Config, idx: IndexState, pages: Pages, log: seq<Logged>, c: ChunkId)
    requires cfg.capacity >= 1
    ensures RecordGood(cfg, pages, ReplayAll(idx, log).chunks, c)
       <==> if c in NewIds(idx, log) then LastHolds(cfg, pages, NewChunks(idx.blobs, log), c)
            else RecordGood(cfg, pages, idx.chunks, c)
  {
    var added := NewChunks(idx.blobs, log);
    ReplayedRecord(idx, log, c);
    if c in EntryIds(added) {
      HoldsWhateverCount(cfg, pages, c, LastOf(added, c), 1);
    }
  }

  /**
   For any log at all: after replay every record holds its chunk exactly if the
   last entry replayed for each registered chunk does.
   */
  lemma RecordsHoldIff(cfg: Config, idx: IndexState, pages: Pages, log: seq<Logged>)
    requires cfg.capacity >= 1 && RecordsHold(cfg, pages, idx.chunks)
    ensures RecordsHold(cfg, pages, ReplayAll(idx, log).chunks)
       <==> forall c :: c in NewIds(idx, log) ==> LastHolds(cfg, pages, NewChunks(idx.blobs, log), c)
  {
    var chunks, added := ReplayAll(idx, log).chunks, NewChunks(idx.blobs, log);
    RecordsGood(cfg, pages, idx.chunks);
    RecordsGood(cfg, pages, chunks);
    forall c
      ensures RecordGood(cfg, pages, chunks, c) <==> (c in EntryIds(added) ==> LastHolds(cfg, pages, added, c))
    {
      RecordGoodIff(cfg, idx, pages, log, c);
      assert RecordGood(cfg, pages, idx.chunks, c);
    }
  }

  /** A replayed entry comes from the log of a segment, so its pages are those written for it. */
  lemma NewChunkLogged(cfg: Config, s: Store, e: ChunkEntry)
    requires cfg.capacity >= 1 && LogOk(cfg, s.disk, s.wal) && e in NewChunks(s.idx.blobs, Log(s))
    ensures ChunkLogged(cfg, s.disk, e)
  {
    NewChunksFrom(s.idx.blobs, Log(s), e);
    var i :| 0 <= i < |Log(s)| && Replayed(s.idx.blobs, Log(s), i) && e in Log(s)[i].chunks;
    LoggedEntry(cfg, s, Log(s)[i]);
  }

  lemma LoggedEntry(cfg: Config, s: Store, e: Logged)
    requires cfg.capacity >= 1 && LogOk(cfg, s.disk, s.wal) && e in Log(s)
    ensures EntryLogged(cfg, s.disk, e)
  {
    InWholeLog(s.disk.ends.Keys, s.wal, s.disk.nextSeg, e);
  }

  /** The record of a registered chunk after reopening: where the log has it, holding exactly if its pages are intact. */
  lemma RegisteredRecord(cfg: Config, s: Store, c: ChunkId)
    requires cfg.capacity >= 1 && LogOk(cfg, s.disk, s.wal) && c in NewIds(s.idx, Log(s))
    ensures var e, s' := LastOf(NewChunks(s.idx.blobs, Log(s)), c), CrashStep(s);
            && ChunkLogged(cfg, s.disk, e)
            && c in s'.idx.chunks && s'.idx.chunks[c] == e.(refCount := 1)
            && (Holds(cfg, s.disk.pages, c, s'.idx.chunks[c]) <==> Intact(s.disk.pages, e))
  {
    var e := LastOf(NewChunks(s.idx.blobs, Log(s)), c);
    ReplayedRecord(s.idx, Log(s), c);
    NewChunkLogged(cfg, s, e);
    LoggedHoldsIff(cfg, s.disk, e);
    HoldsWhateverCount(cfg, s.disk.pages, c, e, 1);
  }

  // ---- the disk

  lemma HighestSegIs(ends: map<nat, nat>, below: nat)
    requires below > 1 ==> below - 1 in ends
    requires forall g :: g in ends ==> 1 <= g < below
    ensures HighestSeg(ends, below) == if below > 1 then below - 1 else 0
  {
  }

  /** Segment ids go on where they were: the highest one is never deleted. */
  lemma ReopenKeepsIds(d: Disk)
    requires ValidDisk(d)
    ensures var d' := Reopen(d); ValidDisk(d') && d' == d.(active := d'.active)
  {
    HighestSegIs(d.ends, d.nextSeg);
  }

  // ---- the invariant

  /**
   A registered chunk is counted as often as it is claimed after reopening exactly
   if it is logged once and claimed by nobody, and is where its record says exactly
   if its pages are there and unflagged. Any other chunk is as it was.
   */
  lemma SoundAfterCrashIff(cfg: Config, s: Store, bad: Disorder, c: ChunkId)
    requires cfg.capacity >= 1 && Openable(cfg, s, bad)
    ensures var s' := CrashStep(s);
            if c in NewIds(s.idx, Log(s)) then
              && c in s'.idx.chunks
              && (Gap(s'.idx, c) >= 0 <==> Mult(NewIds(s.idx, Log(s)), c) == 1 && Unclaimed(s.idx.blobs, c))
              && (InPlace(cfg, s', c) <==> Intact(s.disk.pages, LastOf(NewChunks(s.idx.blobs, Log(s)), c)))
            else
              Gap(s'.idx, c) == Gap(s.idx, c) && (InPlace(cfg, s', c) <==> InPlace(cfg, s, c))
  {
    ReopenKeepsIds(s.disk);
    if c in NewIds(s.idx, Log(s)) {
      RegisteredRecord(cfg, s, c);
      ReplayCoversIff(s.idx, Log(s), c);
    } else {
      ReplayedRecord(s.idx, Log(s), c);
      ReplayGap(s.idx, Log(s), c);
    }
  }

  lemma ManifestsAfterReplay(cfg: Config, s: Store)
    requires cfg.capacity >= 1 && LogOk(cfg, s.disk, s.wal) && ManifestsFixed(cfg, s.idx.blobs)
    ensures ManifestsFixed(cfg, CrashStep(s).idx.blobs)
  {
    var log := Log(s);
    forall e | e in log
      ensures EntryLogged(cfg, s.disk, e)
    {
      LoggedEntry(cfg, s, e);
    }
    ManifestsFromLog(cfg, s.idx, s.disk, log);
  }

  lemma ManifestsFromLog(cfg: Config, idx: IndexState, d: Disk, log: seq<Logged>)
    requires cfg.capacity >= 1 && ManifestsFixed(cfg, idx.blobs)
    requires forall e :: e in log ==> EntryLogged(cfg, d, e)
    ensures ManifestsFixed(cfg, ReplayAll(idx, log).blobs)
  {
    var blobs := ReplayAll(idx, log).blobs;
    forall b | b in blobs
      ensures blobs[b].chunkIds == PieceIds(cfg.split(b.content))
    {
      if b in idx.blobs {
        OldManifest(idx, log, b);
      } else {
        var e := NewManifest(idx, log, b);
        assert EntryLogged(cfg, d, e);
      }
    }
  }

  lemma OwnedAfterReplay(cfg: Config, s: Store)
    requires cfg.capacity >= 1 && LogOk(cfg, s.disk, s.wal) && AllOwned(cfg.ns, s.idx.chunks)
    ensures AllOwned(cfg.ns, CrashStep(s).idx.chunks)
  {
    forall c | c in CrashStep(s).idx.chunks
      ensures CrashStep(s).idx.chunks[c].ns == cfg.ns
    {
      ReplayedRecord(s.idx, Log(s), c);
      if c in NewIds(s.idx, Log(s)) {
        RegisteredRecord(cfg, s, c);
      }
    }
  }

  lemma SoundMeansCore(cfg: Config, s: Store, bad: Disorder)
    requires cfg.capacity >= 1 && NonNegative(s.idx) && Backed(s.idx) && AllOwned(cfg.ns, s.idx.chunks)
    requires ManifestsFixed(cfg, s.idx.blobs) && ValidDisk(s.disk)
    requires forall c :: c !in bad.counts ==> Gap(s.idx, c) >= 0
    requires forall c :: c !in bad.places ==> InPlace(cfg, s, c)
    ensures CoreBut(cfg, s.idx, s.disk, bad)
  {
    forall c | c in s.idx.chunks && c !in bad.places
      ensures Holds(cfg, s.disk.pages, c, s.idx.chunks[c])
    {
      assert InPlace(cfg, s, c);
    }
  }

  lemma CoreMeansSound(cfg: Config, s: Store, bad: Disorder, c: ChunkId)
    requires cfg.capacity >= 1 && CoreBut(cfg, s.idx, s.disk, bad)
    ensures c !in bad.counts ==> Gap(s.idx, c) >= 0
    ensures c !in bad.places ==> InPlace(cfg, s, c)
  {
  }

  /** After reopening everything is in order but for the chunks named. */
  lemma OpenableAfterCrash(cfg: Config, s: Store, bad: Disorder)
    requires cfg.capacity >= 1 && Openable(cfg, s, bad)
    ensures Openable(cfg, CrashStep(s), BadAfterCrash(s, bad))
  {
    var s', bad' := CrashStep(s), BadAfterCrash(s, bad);
    ReopenKeepsIds(s.disk);
    LogStays(cfg, s.disk, s'.disk, s.wal);
    ManifestsAfterReplay(cfg, s);
    OwnedAfterReplay(cfg, s);
    ReplayBacked(s.idx, Log(s));
    forall c
      ensures c !in bad'.counts ==> Gap(s'.idx, c) >= 0
      ensures c !in bad'.places ==> InPlace(cfg, s', c)
    {
      SoundAfterCrashIff(cfg, s, bad, c);
      CoreMeansSound(cfg, s, bad, c);
    }
    SoundMeansCore(cfg, s', bad');
  }

  /** The crash step, at any point of any operation. */
  lemma CrashKeeps(cfg: Config, s: Store, bad: Disorder)
    requires cfg.capacity >= 1 && Inv(cfg, s, bad)
    ensures Inv(cfg, CrashStep(s), BadAfterCrash(s, bad))
  {
    OpenableAfterCrash(cfg, s, bad);
    ReopenKeepsIds(s.disk);
  }

  /** What was in order before the open and is not brought back wrong is in order after it. */
  lemma NothingAdded(s: Store)
    ensures BadAfterCrash(s, IN_ORDER) == Disordered(s)
  {
    assert Elsewhere(s, {}) == {};
  }

  /** Everything is in order after reopening exactly if every chunk the log brings back is. */
  lemma CoreAfterCrashIff(cfg: Config, s: Store)
    requires cfg.capacity >= 1 && Openable(cfg, s, IN_ORDER)
    ensures Core(cfg, CrashStep(s).idx, CrashStep(s).disk) <==> Disordered(s) == IN_ORDER
  {
    OpenableAfterCrash(cfg, s, IN_ORDER);
    NothingAdded(s);
    if Core(cfg, CrashStep(s).idx, CrashStep(s).disk) {
      forall c
        ensures !Miscounted(s, c) && !Misplaced(s, c)
      {
        SoundAfterCrashIff(cfg, s, IN_ORDER, c);
        CoreMeansSound(cfg, CrashStep(s), IN_ORDER, c);
      }
      assert Disordered(s) == IN_ORDER;
    }
  }

  /** So a crash in the middle of anything keeps the whole invariant under the same condition. */
  lemma CrashKeepsAllIff(cfg: Config, s: Store)
    requires cfg.capacity >= 1 && Inv(cfg, s, IN_ORDER)
    ensures Inv(cfg, CrashStep(s), IN_ORDER) <==> Disordered(s) == IN_ORDER
  {
    CrashKeeps(cfg, s, IN_ORDER);
    CoreAfterCrashIff(cfg, s);
    NothingAdded(s);
  }
}
