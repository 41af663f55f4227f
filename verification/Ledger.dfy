/**
 The statistics row as a ledger: what CommitPut and CommitDelete add and
 subtract step by step is the total over the tables.
 */
module Ledger {
  import opened Base
  import opened Records
  import opened IndexSpec
  import opened DoubleEntry

  /** What one ref contributes to each live counter of namespace `ns`. */
  function OneRef(ns: NsId): RefEntry -> int {
    (r: RefEntry) => if r.ns == ns then 1 else 0
  }

  function RefSize(ns: NsId): RefEntry -> int {
    (r: RefEntry) => if r.ns == ns then r.size else 0
  }

  function RefChunks(ns: NsId): RefEntry -> int {
    (r: RefEntry) => if r.ns == ns then r.chunkCount else 0
  }

  predicate RefsAgree(s: IndexState) {
    forall k :: k in s.refs ==> s.refs[k].ns == k.0 && s.refs[k].key == k.1
  }

  /** The live counters of every namespace are sums over its refs. */
  ghost predicate LiveLedger(s: IndexState) {
    forall ns ::
      var st := StatsOf(s.stats, ns);
      && st.blobCount == MapSum(s.refs, OneRef(ns))
      && st.bytesStored == MapSum(s.refs, RefSize(ns))
      && st.chunkCount == MapSum(s.refs, RefChunks(ns))
  }

  /** What a dead chunk record contributes to the dead counters. */
  function DeadLength(): ChunkEntry -> int {
    (c: ChunkEntry) => if c.refCount == 0 then c.length else 0
  }

  function DeadOne(): ChunkEntry -> int {
    (c: ChunkEntry) => if c.refCount == 0 then 1 else 0
  }

  ghost function DeadBytes(chunks: ChunkTable): int {
    MapSum(chunks, DeadLength())
  }

  ghost function DeadCount(chunks: ChunkTable): int {
    MapSum(chunks, DeadOne())
  }

  /** The dead counters of `ns` are the length sum and the number of unreferenced chunk records. */
  ghost predicate DeadLedger(s: IndexState, ns: NsId) {
    var st := StatsOf(s.stats, ns);
    st.deadBytes == DeadBytes(s.chunks) && st.deadChunks == DeadCount(s.chunks)
  }

  /** Every chunk record belongs to `ns`, has a non-negative count and a nonempty payload. */
  predicate OneNamespace(chunks: ChunkTable, ns: NsId) {
    forall c :: c in chunks ==> chunks[c].ns == ns && chunks[c].refCount >= 0 && chunks[c].length > 0
  }

  // ---- live counters

  /** The recorded sizes of a ref depend only on the blob it names. */
  predicate SizesAgree(s: IndexState, ref: RefEntry) {
    forall k :: k in s.refs && s.refs[k].blobId == ref.blobId ==>
      s.refs[k].size == ref.size && s.refs[k].chunkCount == ref.chunkCount
  }

  lemma PutKeepsLiveLedger(s: IndexState, ref: RefEntry, blob: BlobEntry, entries: seq<ChunkEntry>)
    requires RefsAgree(s) && LiveLedger(s) && SizesAgree(s, ref)
    requires ref.size == blob.totalSize && ref.chunkCount == |entries|
    ensures var s' := CommitPut(s, ref, blob, entries).0; RefsAgree(s') && LiveLedger(s')
  {
    var s' := CommitPut(s, ref, blob, entries).0;
    var k := (ref.ns, ref.key);
    forall ns
      ensures var st := StatsOf(s'.stats, ns);
              && st.blobCount == MapSum(s'.refs, OneRef(ns))
              && st.bytesStored == MapSum(s'.refs, RefSize(ns))
              && st.chunkCount == MapSum(s'.refs, RefChunks(ns))
    {
      MapSumPut(s.refs, k, ref, OneRef(ns));
      MapSumPut(s.refs, k, ref, RefSize(ns));
      MapSumPut(s.refs, k, ref, RefChunks(ns));
      assert StatsOf(s.stats, ns).blobCount == MapSum(s.refs, OneRef(ns));
    }
  }

  lemma DeleteKeepsLiveLedger(s: IndexState, ns: NsId, key: Key)
    requires RefsAgree(s) && LiveLedger(s) && (ns, key) in s.refs
    ensures var s' := CommitDelete(s, ns, key).value; RefsAgree(s') && LiveLedger(s')
  {
    var s' := CommitDelete(s, ns, key).value;
    forall n
      ensures var st := StatsOf(s'.stats, n);
              && st.blobCount == MapSum(s'.refs, OneRef(n))
              && st.bytesStored == MapSum(s'.refs, RefSize(n))
              && st.chunkCount == MapSum(s'.refs, RefChunks(n))
    {
      MapSumDrop(s.refs, (ns, key), OneRef(n));
      MapSumDrop(s.refs, (ns, key), RefSize(n));
      MapSumDrop(s.refs, (ns, key), RefChunks(n));
      assert StatsOf(s.stats, n).blobCount == MapSum(s.refs, OneRef(n));
    }
  }

  lemma RenameKeepsLiveLedger(s: IndexState, ns: NsId, oldKey: Key, newKey: Key)
    requires RefsAgree(s) && LiveLedger(s) && CommitRenameRef(s, ns, oldKey, newKey).Ok?
    ensures var s' := CommitRenameRef(s, ns, oldKey, newKey).value; RefsAgree(s') && LiveLedger(s')
  {
    var s' := CommitRenameRef(s, ns, oldKey, newKey).value;
    var moved := s.refs[(ns, oldKey)].(key := newKey);
    var both := s.refs[(ns, newKey) := moved];
    forall n
      ensures var st := StatsOf(s'.stats, n);
              && st.blobCount == MapSum(s'.refs, OneRef(n))
              && st.bytesStored == MapSum(s'.refs, RefSize(n))
              && st.chunkCount == MapSum(s'.refs, RefChunks(n))
    {
      MapSumPut(s.refs, (ns, newKey), moved, OneRef(n));
      MapSumPut(s.refs, (ns, newKey), moved, RefSize(n));
      MapSumPut(s.refs, (ns, newKey), moved, RefChunks(n));
      MapSumDrop(both, (ns, oldKey), OneRef(n));
      MapSumDrop(both, (ns, oldKey), RefSize(n));
      MapSumDrop(both, (ns, oldKey), RefChunks(n));
      assert StatsOf(s.stats, n).blobCount == MapSum(s.refs, OneRef(n));
    }
  }

  // ---- dead counters

  /** Changing one record moves the dead totals by the difference of its two contributions. */
  lemma DeadTotalsPut(chunks: ChunkTable, id: ChunkId, c: ChunkEntry)
    ensures DeadBytes(chunks[id := c])
         == DeadBytes(chunks) + DeadLength()(c) - (if id in chunks then DeadLength()(chunks[id]) else 0)
    ensures DeadCount(chunks[id := c])
         == DeadCount(chunks) + DeadOne()(c) - (if id in chunks then DeadOne()(chunks[id]) else 0)
  {
    MapSumPut(chunks, id, c, DeadLength());
    MapSumPut(chunks, id, c, DeadOne());
  }

  /** The bytes and chunks the decrement loop reports are the records it killed. */
  lemma {:induction false} DecChunksDead(chunks: ChunkTable, ids: seq<ChunkId>, ns: NsId)
    requires OneNamespace(chunks, ns)
    ensures var d := DecChunks(chunks, ids);
            && OneNamespace(d.chunks, ns)
            && DeadBytes(d.chunks) == DeadBytes(chunks) + d.deadBytes
            && DeadCount(d.chunks) == DeadCount(chunks) + d.deadChunks
    decreases |ids|
  {
    if ids != [] {
      DecChunksDead(chunks, ids[..|ids| - 1], ns);
      var d, id := DecChunks(chunks, ids[..|ids| - 1]), ids[|ids| - 1];
      if id in d.chunks {
        DeadTotalsPut(d.chunks, id, d.chunks[id].(refCount := d.chunks[id].refCount - 1));
      }
    }
  }

  /** The bytes and chunks the upsert loop reports as revived are the dead records it reused. */
  lemma {:induction false} UpsertDead(ns: NsId, chunks: ChunkTable, entries: seq<ChunkEntry>)
    requires OneNamespace(chunks, ns)
    requires forall e :: e in entries ==> e.ns == ns && e.length > 0
    ensures var u := UpsertAll(ns, chunks, entries);
            && OneNamespace(u.chunks, ns)
            && DeadBytes(u.chunks) == DeadBytes(chunks) - u.revivedBytes
            && DeadCount(u.chunks) == DeadCount(chunks) - u.revivedChunks
    decreases |entries|
  {
    if entries != [] {
      var init, last := entries[..|entries| - 1], entries[|entries| - 1];
      assert last in entries && forall e :: e in init ==> e in entries;
      UpsertDead(ns, chunks, init);
      var u := UpsertAll(ns, chunks, init);
      if last.chunkId in u.chunks {
        DeadTotalsPut(u.chunks, last.chunkId, u.chunks[last.chunkId].(refCount := u.chunks[last.chunkId].refCount + 1));
      } else {
        DeadTotalsPut(u.chunks, last.chunkId, last.(refCount := 1));
      }
    }
  }

  /** New key, overwrite, same content, revival of a dead chunk: the dead counters stay exact. */
  lemma PutKeepsDeadLedger(s: IndexState, ref: RefEntry, blob: BlobEntry, entries: seq<ChunkEntry>)
    requires OneNamespace(s.chunks, ref.ns) && DeadLedger(s, ref.ns)
    requires forall e :: e in entries ==> e.ns == ref.ns && e.length > 0
    ensures var s' := CommitPut(s, ref, blob, entries).0;
            OneNamespace(s'.chunks, ref.ns) && DeadLedger(s', ref.ns)
  {
    var added := AddBlob(s.blobs, blob);
    var prev := Replaced(s, ref);
    if prev.Some? && prev.value.blobId in added {
      DecChunksDead(s.chunks, added[prev.value.blobId].chunkIds, ref.ns);
    }
    UpsertDead(ref.ns, ReleaseReplaced(s, ref, blob).dec.chunks, entries);
  }

  lemma DeleteKeepsDeadLedger(s: IndexState, ns: NsId, key: Key)
    requires OneNamespace(s.chunks, ns) && DeadLedger(s, ns) && (ns, key) in s.refs
    ensures var s' := CommitDelete(s, ns, key).value; OneNamespace(s'.chunks, ns) && DeadLedger(s', ns)
  {
    var b := s.refs[(ns, key)].blobId;
    if b in s.blobs {
      DecChunksDead(s.chunks, s.blobs[b].chunkIds, ns);
    }
  }

  /** Dead totals are never negative, and zero exactly when no record is dead. */
  lemma DeadTotalsZeroIff(chunks: ChunkTable, ns: NsId)
    requires OneNamespace(chunks, ns)
    ensures DeadBytes(chunks) >= 0 && DeadCount(chunks) >= 0
    ensures DeadBytes(chunks) == 0 <==> forall c :: c in chunks ==> chunks[c].refCount > 0
    ensures DeadCount(chunks) == 0 <==> forall c :: c in chunks ==> chunks[c].refCount > 0
  {
    assert forall c :: c in chunks ==> DeadLength()(chunks[c]) >= 0 && DeadOne()(chunks[c]) >= 0;
    MapSumTerm(chunks, DeadLength());
    MapSumTerm(chunks, DeadOne());
    if forall c :: c in chunks ==> chunks[c].refCount > 0 {
      MapSumZero(chunks, DeadLength());
      MapSumZero(chunks, DeadOne());
    } else {
      var c :| c in chunks && chunks[c].refCount <= 0;
      assert DeadLength()(chunks[c]) > 0 && DeadOne()(chunks[c]) > 0;
    }
  }
}
