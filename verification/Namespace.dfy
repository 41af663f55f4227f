/**
 One namespace with one operation at a time: the code of Put, Get, Delete,
 Rename and compaction phase 1 as it runs, for chunks of any number of pages.
 Its contracts are those of a map from keys to bytes. The log and reopening are
 part of StoreMachine.dfy.
 */
module NamespaceStore {
  import opened Base
  import opened Records
  import opened Disk
  import opened IndexStore
  import opened DoubleEntry
  import opened Ledger
  import opened StoreInvariant
  import opened SweepLedger
  import opened SweepQueue
  import opened Bookkeeping
  import opened RelocationSteps
  import opened Relocations
  import Spec = IndexSpec
  import Machine = StoreMachine
  import Steps = StoreSteps
  import Refinement = StoreRefinement
  import Quotas

  datatype PutError = InvalidKey | EmptyBlob | QuotaExceeded(dimension: Quotas.Dimension)

  /** Every operation refuses the empty key before it looks anything up. */
  datatype KeyError<+E> = EmptyKey | Refused(error: E)

  type Contents = Refinement.Contents

  /** What the keys of a namespace name. */
  function KeyContents(ns: NsId, refs: RefTable): Contents {
    map r | r in refs && r.0 == ns :: r.1 := refs[r].blobId.content
  }

  lemma KeyContentsAt(ns: NsId, refs: RefTable, key: Key)
    ensures key in KeyContents(ns, refs) <==> (ns, key) in refs
    ensures key in KeyContents(ns, refs) ==> KeyContents(ns, refs)[key] == refs[(ns, key)].blobId.content
  {
    assert (ns, key).0 == ns && (ns, key).1 == key;
  }

  lemma KeyContentsPut(ns: NsId, refs: RefTable, key: Key, ref: RefEntry)
    ensures KeyContents(ns, refs[(ns, key) := ref]) == KeyContents(ns, refs)[key := ref.blobId.content]
  {
    var refs' := refs[(ns, key) := ref];
    forall k {:trigger k in KeyContents(ns, refs')}
      ensures k in KeyContents(ns, refs') <==> k == key || k in KeyContents(ns, refs)
      ensures k in KeyContents(ns, refs') ==>
                KeyContents(ns, refs')[k] == if k == key then ref.blobId.content else KeyContents(ns, refs)[k]
    {
      KeyContentsAt(ns, refs, k);
      KeyContentsAt(ns, refs', k);
    }
  }

  lemma KeyContentsDrop(ns: NsId, refs: RefTable, key: Key)
    ensures KeyContents(ns, refs - {(ns, key)}) == KeyContents(ns, refs) - {key}
  {
    var refs' := refs - {(ns, key)};
    forall k {:trigger k in KeyContents(ns, refs')}
      ensures k in KeyContents(ns, refs') <==> k != key && k in KeyContents(ns, refs)
      ensures k in KeyContents(ns, refs') ==> KeyContents(ns, refs')[k] == KeyContents(ns, refs)[k]
    {
      KeyContentsAt(ns, refs, k);
      KeyContentsAt(ns, refs', k);
    }
  }

  lemma ContentsAfterDelete(ns: NsId, s: IndexState, key: Key)
    ensures var r := Spec.CommitDelete(s, ns, key);
            && (r.Ok? <==> (ns, key) in s.refs)
            && KeyContents(ns, (if r.Ok? then r.value else s).refs) == KeyContents(ns, s.refs) - {key}
  {
    KeyContentsAt(ns, s.refs, key);
    KeyContentsDrop(ns, s.refs, key);
  }

  ghost function Prefixed(data: Bytes, r: Result<Bytes, Machine.GetError>): (p: Result<Bytes, Machine.GetError>)
    ensures data == [] ==> p == r
  {
    if r.Err? then r
    else
      assert data == [] ==> data + r.value == r.value;
      Ok(data + r.value)
  }

  lemma PrefixedTwice(a: Bytes, b: Bytes, r: Result<Bytes, Machine.GetError>)
    ensures Prefixed(a, if r.Err? then r else Ok(b + r.value)) == Prefixed(a + b, r)
  {
    if r.Ok? {
      assert a + (b + r.value) == (a + b) + r.value;
    }
  }

  /** Pages without records are harmless, and only the empty content has no chunks. */
  lemma Uncommitted(cfg: Config, before: Machine.Store, content: Bytes, rolls: seq<bool>)
    requires ValidConfig(cfg) && Core(cfg, before.idx, before.disk)
    ensures var w := WritePieces(cfg, before.disk, cfg.split(content), rolls);
            && Core(cfg, before.idx, w.0) && (|w.1| == 0 <==> content == [])
            && (SinglePage(cfg) && WholePages(cfg, before.disk.pages) ==> WholePages(cfg, w.0.pages))
  {
    var pieces := cfg.split(content);
    WritePiecesHolds(cfg, before.disk, pieces, rolls);
    RecordsHoldExtends(cfg, before.disk, WritePieces(cfg, before.disk, pieces, rolls).0, before.idx.chunks, IN_ORDER);
    assert pieces != [] ==> Flatten(pieces) == pieces[0] + Flatten(pieces[1..]);
    if SinglePage(cfg) && WholePages(cfg, before.disk.pages) {
      Steps.WritePiecesWhole(cfg, before.disk, pieces, rolls);
    }
  }

  /** The commit of a put, in terms of the step the store machine takes for it. */
  lemma Committed(cfg: Config, before: Machine.Store, key: Key, content: Bytes, rolls: seq<bool>)
    requires ValidConfig(cfg) && Core(cfg, before.idx, before.disk) && before.procs == map[]
    ensures var (d, entries) := WritePieces(cfg, before.disk, cfg.split(content), rolls);
            var (idx', reused) := Spec.CommitPut(before.idx, Machine.RefFor(cfg, key, content, entries),
                                                 Machine.BlobFor(content, entries), entries);
            Core(cfg, idx', d) && forall j :: 0 <= j < |reused| ==> Clear(idx'.chunks, reused[j].loc)
  {
    var pieces := cfg.split(content);
    var w := WritePieces(cfg, before.disk, pieces, rolls);
    WritePiecesHolds(cfg, before.disk, pieces, rolls);
    Steps.EntryIdsArePieceIds(cfg, before.disk, w.0, pieces, w.1);
    Steps.PutIndex(cfg, before.idx, key, content, w.1, {});
    Steps.PutRecords(cfg, before, 0, key, content, rolls, w.0, w.1, IN_ORDER);
    var after := Machine.PutStep(cfg, before, 0, key, content, rolls);
    assert forall c :: Gap(after.idx, c) == Gap(before.idx, c);
    var c := Spec.CommitPut(before.idx, Machine.RefFor(cfg, key, content, w.1), Machine.BlobFor(content, w.1), w.1);
    forall j | 0 <= j < |c.1|
      ensures Clear(c.0.chunks, c.1[j].loc)
    {
      assert Retired(after, after.procs[0].dups[j], IN_ORDER);
    }
  }

  class Namespace {
    const cfg: Config
    const idx: Index
    const quota: Option<Quotas.Quota>
    var disk: Disk

    ghost predicate Valid()
      reads this, idx
    {
      && ValidConfig(cfg) && Core(cfg, idx.State(), disk) && Accounts(cfg, idx.State())
      && (SinglePage(cfg) ==> WholePages(cfg, disk.pages))
    }

    /** The user's view: the content each key of this namespace names. */
    ghost function Contents(): Contents
      reads this, idx
    {
      KeyContents(cfg.ns, idx.refs)
    }

    ghost function Snapshot(): Machine.Store
      reads this, idx
    {
      Machine.Store(idx.State(), disk, map[], map[])
    }

    constructor (cfg: Config, quota: Option<Quotas.Quota>)
      requires ValidConfig(cfg)
      ensures Valid() && Contents() == map[] && this.cfg == cfg && this.quota == quota
      ensures fresh(idx)
    {
      this.cfg := cfg;
      this.quota := quota;
      disk := EMPTY_DISK;
      idx := new Index();
      new;
      assert forall c :: Gap(EMPTY_INDEX, c) == 0;
    }

    /** The loop of WriteBlob: one chunk after the other at the end of the active segment. */
    method WriteBlob(content: Bytes, rolls: seq<bool>) returns (entries: seq<ChunkEntry>)
      requires cfg.capacity >= 1
      modifies this`disk
      ensures (disk, entries) == WritePieces(cfg, old(disk), cfg.split(content), rolls)
    {
      var pieces := cfg.split(content);
      entries := [];
      var i := 0;
      while i < |pieces|
        invariant 0 <= i <= |pieces|
        invariant (disk, entries) == WritePieces(cfg, old(disk), pieces[..i], rolls)
      {
        PrefixSnoc(pieces, i);
        var (d, entry) := WriteChunk(cfg, disk, pieces[i], i, i < |rolls| && rolls[i]);
        disk := d;
        entries := entries + [entry];
        i := i + 1;
      }
      assert pieces[..i] == pieces;
    }

    method MarkPageDeleted(loc: Loc)
      modifies this`disk
      ensures disk == old(disk).(pages := MarkDeleted(old(disk.pages), loc))
    {
      disk := disk.(pages := MarkDeleted(disk.pages, loc));
    }

    /**
     Put. A rejected put changes no key: only pages may have been written. A
     successful one binds the key to the content and leaves every other key alone.
     */
    method Put(key: Key, content: Bytes, rolls: seq<bool>) returns (r: Result<(), PutError>)
      requires Valid()
      modifies this`disk, idx
      ensures Valid()
      ensures key == "" <==> r == Err(InvalidKey)
      ensures key != "" && content == [] <==> r == Err(EmptyBlob)
      ensures key != "" && content != [] ==>
                r == match Quotas.Check(quota, StatsOf(old(idx.stats), cfg.ns), |content|)
                     case None => Ok(())
                     case Some(dimension) => Err(QuotaExceeded(dimension))
      ensures r.Err? ==> idx.State() == old(idx.State())
      ensures Contents() == if r.Ok? then old(Contents())[key := content] else old(Contents())
    {
      if key == "" {
        return Err(InvalidKey);
      }
      ghost var before := Snapshot();
      var entries := WriteBlob(content, rolls);
      Uncommitted(cfg, before, content, rolls);
      if |entries| == 0 {
        return Err(EmptyBlob);
      }
      var refused := Quotas.Check(quota, Records.StatsOf(idx.stats, cfg.ns), |content|);
      if refused.Some? {
        return Err(QuotaExceeded(refused.value));
      }
      var reused := idx.CommitPut(Machine.RefFor(cfg, key, content, entries),
                                  Machine.BlobFor(content, entries), entries);
      Committed(cfg, before, key, content, rolls);
      PutAccounts(cfg, before, key, content, rolls);
      KeyContentsPut(cfg.ns, before.idx.refs, key, Machine.RefFor(cfg, key, content, entries));
      MarkDuplicates(reused);
      return Ok(());
    }

    /** The loop of Put over the duplicates its commit reported. */
    method MarkDuplicates(reused: seq<ChunkEntry>)
      requires Valid() && forall j :: 0 <= j < |reused| ==> Clear(idx.chunks, reused[j].loc)
      modifies this`disk
      ensures Valid()
    {
      var i := 0;
      while i < |reused|
        invariant 0 <= i <= |reused|
        invariant Valid()
      {
        FlagKeepsRecords(cfg, disk.pages, idx.chunks, reused[i].loc, IN_ORDER);
        MarkPageDeleted(reused[i].loc);
        i := i + 1;
      }
    }

    /** Get, read to the end: the bytes bound to the key, or not found. */
    method Get(key: Key) returns (r: Result<Bytes, KeyError<Machine.GetError>>)
      requires Valid()
      ensures r == if key == "" then Err(EmptyKey)
                   else if key in Contents() then Ok(Contents()[key]) else Err(Refused(Machine.NoSuchKey))
    {
      if key == "" {
        return Err(EmptyKey);
      }
      var found := ReadKey(key);
      match found {
        case Ok(data) => return Ok(data);
        case Err(e) => return Err(Refused(e));
      }
    }

    method ReadKey(key: Key) returns (r: Result<Bytes, Machine.GetError>)
      requires Valid()
      ensures r == if key in Contents() then Ok(Contents()[key]) else Err(Machine.NoSuchKey)
    {
      Refinement.GetReads(cfg, Snapshot(), key, IN_ORDER);
      KeyContentsAt(cfg.ns, idx.refs, key);
      if (cfg.ns, key) !in idx.refs {
        return Err(Machine.NoSuchKey);
      }
      var ref := idx.refs[(cfg.ns, key)];
      if ref.blobId !in idx.blobs {
        return Err(Machine.NoManifest);
      }
      var ids := idx.blobs[ref.blobId].chunkIds;
      var data := [];
      var i := 0;
      while i < |ids|
        invariant 0 <= i <= |ids|
        invariant Machine.ReadAll(cfg, Snapshot(), ids) == Prefixed(data, Machine.ReadAll(cfg, Snapshot(), ids[i..]))
      {
        assert ids[i..][0] == ids[i] && ids[i..][1..] == ids[i + 1..];
        if ids[i] !in idx.chunks {
          return Err(Machine.NoRecord);
        }
        var chunk := ReadChunk(cfg, disk.pages, idx.chunks[ids[i]]);
        match chunk {
          case Err(e) =>
            return Err(Machine.Read(e));
          case Ok(bytes) =>
            PrefixedTwice(data, bytes, Machine.ReadAll(cfg, Snapshot(), ids[i + 1..]));
            data := data + bytes;
        }
        i := i + 1;
      }
      assert data + [] == data;
      return Ok(data);
    }

    /** Delete: a missing key is not an error. */
    method Delete(key: Key) returns (ok: bool)
      requires Valid()
      modifies idx
      ensures Valid() && (ok <==> key != "")
      ensures Contents() == if ok then old(Contents()) - {key} else old(Contents())
    {
      if key == "" {
        return false;
      }
      ContentsAfterDelete(cfg.ns, idx.State(), key);
      if (cfg.ns, key) in idx.refs {
        DeleteAccounts(cfg, idx.State(), disk, key);
      }
      var _ := idx.CommitDelete(cfg.ns, key);
      ok := true;
    }

    /** Rename moves the binding, and refuses a missing source or an existing target. */
    method Rename(oldKey: Key, newKey: Key) returns (r: Result<(), KeyError<IndexError>>)
      requires Valid()
      modifies idx
      ensures Valid()
      ensures var m := old(Contents());
              && r == (if oldKey == "" || newKey == "" then Err(EmptyKey)
                       else if oldKey !in m then Err(Refused(NotFound))
                       else if newKey in m then Err(Refused(KeyExists)) else Ok(()))
              && Contents() == if r.Ok? then m[newKey := m[oldKey]] - {oldKey} else m
    {
      if oldKey == "" || newKey == "" {
        return Err(EmptyKey);
      }
      var done := RenameKey(oldKey, newKey);
      match done {
        case Ok(_) => return Ok(());
        case Err(e) => return Err(Refused(e));
      }
    }

    method RenameKey(oldKey: Key, newKey: Key) returns (r: Result<(), IndexError>)
      requires Valid()
      modifies idx
      ensures Valid()
      ensures var m := old(Contents());
              && r == (if oldKey !in m then Err(NotFound) else if newKey in m then Err(KeyExists) else Ok(()))
              && Contents() == if r.Ok? then m[newKey := m[oldKey]] - {oldKey} else m
    {
      RenameKeepsGaps(idx.State(), cfg.ns, oldKey, newKey, {});
      ghost var s := idx.State();
      KeyContentsAt(cfg.ns, s.refs, oldKey);
      KeyContentsAt(cfg.ns, s.refs, newKey);
      r := idx.CommitRenameRef(cfg.ns, oldKey, newKey);
      if r.Ok? {
        ghost var moved := s.refs[(cfg.ns, oldKey)].(key := newKey);
        RenameAccounts(cfg, s, oldKey, newKey);
        KeyContentsPut(cfg.ns, s.refs, newKey, moved);
        KeyContentsDrop(cfg.ns, s.refs[(cfg.ns, newKey) := moved], oldKey);
        assert forall c :: Gap(idx.State(), c) == Gap(s, c);
      }
    }

    // ---- compaction, phase 1

    /**
     The scan: every page once, each chunk looked up once and cached. The order in
     which segments and pages come is left open.
     */
    method ScanSegments() returns (queue: seq<ChunkEntry>, bytesFreed: int, chunksFreed: int)
      ensures QueueExact(disk.pages, idx.chunks, queue, disk.pages.Keys)
      ensures bytesFreed == FreedBytes(disk.pages, idx.chunks) && chunksFreed == FreedPages(disk.pages, idx.chunks)
    {
      queue, bytesFreed, chunksFreed := [], 0, 0;
      var cache: map<ChunkId, Option<ChunkEntry>> := map[];
      var todo := disk.pages.Keys;
      ghost var seen: Pages := map[];
      while todo != {}
        invariant todo <= disk.pages.Keys && seen.Keys == disk.pages.Keys - todo
        invariant forall l :: l in seen ==> seen[l] == disk.pages[l]
        invariant forall c :: c in cache ==> cache[c] == if c in idx.chunks then Some(idx.chunks[c]) else None
        invariant QueueExact(disk.pages, idx.chunks, queue, seen.Keys)
        invariant bytesFreed == FreedBytes(seen, idx.chunks) && chunksFreed == FreedPages(seen, idx.chunks)
      {
        var l :| l in todo;
        todo := todo - {l};
        var page := disk.pages[l];
        FreedStep(disk.pages, idx.chunks, seen, l);
        if !page.deleted && page.id !in cache {
          cache := cache[page.id := if page.id in idx.chunks then Some(idx.chunks[page.id]) else None];
        }
        if page.deleted || (cache[page.id].Some? && cache[page.id].value.refCount > 0) {
          QueueSkip(disk.pages, idx.chunks, queue, seen.Keys, l);
        } else {
          QueuePush(disk.pages, idx.chunks, queue, seen.Keys, PageEntry(cfg, page, l));
          queue := queue + [PageEntry(cfg, page, l)];
          bytesFreed := bytesFreed + |page.data|;
          chunksFreed := chunksFreed + 1;
        }
        seen := seen[l := page];
      }
      assert seen == disk.pages;
    }

    /** The loop over the queued pages: one reap transaction each, and the mark if it says so. */
    method ReapQueue(queue: seq<ChunkEntry>, bytes: int, count: int) returns (bytesFreed: int, chunksFreed: int)
      requires Valid() && QueueExact(disk.pages, idx.chunks, queue, disk.pages.Keys)
      modifies this`disk, idx`chunks
      ensures idx.chunks == LiveRecords(old(idx.chunks))
      ensures disk == old(disk).(pages := SweptPages(old(disk.pages), old(idx.chunks)))
      ensures bytesFreed == bytes && chunksFreed == count
    {
      bytesFreed, chunksFreed := bytes, count;
      ghost var pages, chunks := disk.pages, idx.chunks;
      var i := 0;
      while i < |queue|
        invariant 0 <= i <= |queue|
        invariant idx.chunks == ReapedRecords(chunks, queue, i)
        invariant disk == old(disk).(pages := FlaggedPages(pages, queue, i))
        invariant bytesFreed == bytes && chunksFreed == count
      {
        ReapedExact(pages, chunks, queue, i);
        var chunk := queue[i];
        var safeToReap, _ := idx.ReapPhysicalPageIfDead(chunk.chunkId, chunk.loc);
        if safeToReap {
          MarkPageDeleted(chunk.loc);
        } else {
          bytesFreed := bytesFreed - chunk.length;
          chunksFreed := chunksFreed - 1;
        }
        i := i + 1;
      }
      QueueSweeps(cfg, pages, chunks, queue);
    }

    /**
     compactPhase1 with nothing beside it. No key changes; every dead record, every
     page without a live record and every unreferenced manifest goes, and both dead
     counters end at zero.
     */
    method CompactPhase1() returns (blobsRemoved: nat, chunksRemoved: int, bytesFreed: int)
      requires Valid()
      modifies this`disk, idx
      ensures Valid() && Contents() == old(Contents())
      ensures idx.State() == Swept(cfg, old(idx.State()), old(disk.pages))
      ensures disk == old(disk).(pages := SweptPages(old(disk.pages), old(idx.chunks)))
      ensures forall c :: c in idx.chunks ==> idx.chunks[c].refCount > 0
      ensures forall l :: l in disk.pages && !disk.pages[l].deleted ==> disk.pages[l].id in idx.chunks
      ensures StatsOf(idx.stats, cfg.ns).deadBytes == 0 && StatsOf(idx.stats, cfg.ns).deadChunks == 0
      ensures bytesFreed == FreedBytes(old(disk.pages), old(idx.chunks))
      ensures chunksRemoved == FreedPages(old(disk.pages), old(idx.chunks))
      ensures blobsRemoved == |Spec.DeadBlobs(old(idx.blobs))|
    {
      SweepKeepsCore(cfg, idx.State(), disk);
      SweepAccounts(cfg, idx.State(), disk);
      SweepClearsDead(cfg, idx.State(), disk.pages);
      ghost var swept := Swept(cfg, idx.State(), disk.pages);
      var queue, bytes, count := ScanSegments();
      bytesFreed, chunksRemoved := ReapQueue(queue, bytes, count);
      blobsRemoved := idx.PurgeDeadBlobs();
      idx.ReconcileDeadStats(cfg.ns, bytesFreed, chunksRemoved);
      assert idx.State() == swept;
      assert idx.chunks == swept.chunks && idx.stats == swept.stats;
    }

    // ---- compaction, phase 2

    /**
     compactPhase2 on chunks of one page each: no key and no count changes. It ends
     normally exactly if every unflagged page of every selected segment belongs to
     a chunk with a record; then every selected segment is gone and every other one
     is still there.
     */
    method CompactPhase2(threshold: real) returns (ok: bool, segmentsCompacted: nat)
      requires Valid() && SinglePage(cfg)
      modifies this`disk, idx`chunks
      ensures Valid() && Contents() == old(Contents())
      ensures SameCounts(old(idx.chunks), idx.chunks)
      ensures ok <==> AllCovered(old(disk), threshold, old(idx.chunks).Keys)
      ensures ok ==> forall g :: g in old(disk.ends) ==> (g in disk.ends <==> !Selected(old(disk), g, threshold))
    {
      var compacted;
      ok, segmentsCompacted, compacted := CompactSegments(cfg, idx, disk, threshold);
      disk := compacted;
    }

    /** Both phases, one after the other: after phase 1 nothing can stop phase 2. */
    method Compact(threshold: real) returns (ok: bool, chunksRemoved: int, segmentsCompacted: nat)
      requires Valid() && SinglePage(cfg)
      modifies this`disk, idx
      ensures Valid() && Contents() == old(Contents()) && ok
      ensures chunksRemoved == FreedPages(old(disk.pages), old(idx.chunks))
      ensures SameCounts(LiveRecords(old(idx.chunks)), idx.chunks)
      ensures var swept := old(disk).(pages := SweptPages(old(disk.pages), old(idx.chunks)));
              forall g :: g in swept.ends ==> (g in disk.ends <==> !Selected(swept, g, threshold))
    {
      var _, removed, _ := CompactPhase1();
      chunksRemoved := removed;
      ok, segmentsCompacted := CompactPhase2(threshold);
    }
  }
}
