/**
 What each index transaction does to the tables, as functions. The class in
 Index.dfy is proved to compute exactly these; DoubleEntry.dfy and Ledger.dfy
 prove what they keep true.
 */
module IndexSpec {
  import opened Base
  import opened Records

  /** One reference taken from a chunk record; `deadLen` is its length when the last one goes. */
  datatype DecOne = DecOne(chunks: ChunkTable, deadLen: nat)

  function DecChunk(chunks: ChunkTable, cid: ChunkId): DecOne {
    if cid !in chunks || chunks[cid].refCount <= 0 then
      DecOne(chunks, 0)
    else
      var c := chunks[cid].(refCount := chunks[cid].refCount - 1);
      DecOne(chunks[cid := c], if c.refCount == 0 then c.length else 0)
  }

  datatype Dec = Dec(chunks: ChunkTable, deadBytes: nat, deadChunks: nat)

  function DecChunks(chunks: ChunkTable, ids: seq<ChunkId>): Dec
    decreases |ids|
  {
    if ids == [] then
      Dec(chunks, 0, 0)
    else
      var d := DecChunks(chunks, ids[..|ids| - 1]);
      var one := DecChunk(d.chunks, ids[|ids| - 1]);
      Dec(one.chunks, d.deadBytes + one.deadLen, if one.deadLen > 0 then d.deadChunks + 1 else d.deadChunks)
  }

  /** The chunk list of a manifest made from entries in order. */
  function EntryIds(entries: seq<ChunkEntry>): (ids: seq<ChunkId>)
    ensures |ids| == |entries| && forall i :: 0 <= i < |ids| ==> ids[i] == entries[i].chunkId
  {
    seq(|entries|, i requires 0 <= i < |entries| => entries[i].chunkId)
  }

  datatype Upsert = Upsert(
    chunks: ChunkTable, revivedBytes: nat, revivedChunks: nat, newBytes: nat, reused: seq<ChunkEntry>)

  /** Whether an existing record can be reused: it must belong to the writer's namespace. */
  predicate Owned(ns: NsId, chunks: ChunkTable, cid: ChunkId) {
    cid in chunks && chunks[cid].ns == ns
  }

  function UpsertOne(ns: NsId, u: Upsert, entry: ChunkEntry): Upsert {
    if Owned(ns, u.chunks, entry.chunkId) then
      var c := u.chunks[entry.chunkId];
      u.(chunks := u.chunks[entry.chunkId := c.(refCount := c.refCount + 1)],
         revivedBytes := if c.refCount == 0 then u.revivedBytes + c.length else u.revivedBytes,
         revivedChunks := if c.refCount == 0 then u.revivedChunks + 1 else u.revivedChunks,
         reused := u.reused + [entry])
    else
      u.(chunks := u.chunks[entry.chunkId := entry.(refCount := 1)], newBytes := u.newBytes + entry.length)
  }

  function UpsertAll(ns: NsId, chunks: ChunkTable, entries: seq<ChunkEntry>): Upsert
    decreases |entries|
  {
    if entries == [] then
      Upsert(chunks, 0, 0, 0, [])
    else
      UpsertOne(ns, UpsertAll(ns, chunks, entries[..|entries| - 1]), entries[|entries| - 1])
  }

  /** The ref a put replaces, if any. */
  function Replaced(s: IndexState, ref: RefEntry): Option<RefEntry> {
    if (ref.ns, ref.key) in s.refs then Some(s.refs[(ref.ns, ref.key)]) else None
  }

  /** The put overwrites a key that already names the same blob. */
  predicate SameContent(s: IndexState, ref: RefEntry) {
    var prev := Replaced(s, ref);
    prev.Some? && prev.value.blobId == ref.blobId
  }

  /** Step 3: an existing manifest gains a reference, a new one starts with one. */
  function AddBlob(blobs: BlobTable, blob: BlobEntry): BlobTable {
    var id := blob.blobId;
    blobs[id := if id in blobs then blobs[id].(refCount := blobs[id].refCount + 1) else blob.(refCount := 1)]
  }

  datatype Release = Release(blobs: BlobTable, dec: Dec)

  /** A manifest loses one reference, and so does every chunk it lists. */
  function ReleaseBlob(blobs: BlobTable, chunks: ChunkTable, id: BlobId): Release {
    if id in blobs then
      Release(blobs[id := blobs[id].(refCount := blobs[id].refCount - 1)], DecChunks(chunks, blobs[id].chunkIds))
    else
      Release(blobs, Dec(chunks, 0, 0))
  }

  /** Step 4: the tables after an overwrite has released the old content. */
  function ReleaseReplaced(s: IndexState, ref: RefEntry, blob: BlobEntry): Release {
    var blobs := AddBlob(s.blobs, blob);
    var prev := Replaced(s, ref);
    if prev.Some? && !SameContent(s, ref) then
      ReleaseBlob(blobs, s.chunks, prev.value.blobId)
    else
      Release(blobs, Dec(s.chunks, 0, 0))
  }

  /** Step 6: the stats row of the writing namespace. */
  function PutStats(st: Stats, s: IndexState, ref: RefEntry, blob: BlobEntry, entries: seq<ChunkEntry>,
                    dec: Dec, up: Upsert): Stats {
    var prev := Replaced(s, ref);
    var t :=
      if prev.None? then
        st.(blobCount := st.blobCount + 1,
            bytesStored := st.bytesStored + blob.totalSize,
            chunkCount := st.chunkCount + |entries|)
      else if !SameContent(s, ref) then
        st.(bytesStored := st.bytesStored + blob.totalSize - prev.value.size,
            chunkCount := st.chunkCount + |entries| - prev.value.chunkCount)
      else
        st;
    t.(bytesPhysical := t.bytesPhysical + up.newBytes,
       deadBytes := t.deadBytes + dec.deadBytes - up.revivedBytes,
       deadChunks := t.deadChunks + dec.deadChunks - up.revivedChunks)
  }

  function CommitPut(s: IndexState, ref: RefEntry, blob: BlobEntry, entries: seq<ChunkEntry>): (IndexState, seq<ChunkEntry>) {
    var rel := ReleaseReplaced(s, ref, blob);
    var up := UpsertAll(ref.ns, rel.dec.chunks, entries);
    var st := PutStats(StatsOf(s.stats, ref.ns), s, ref, blob, entries, rel.dec, up);
    (IndexState(s.refs[(ref.ns, ref.key) := ref], rel.blobs, up.chunks, s.stats[ref.ns := st]), up.reused)
  }

  function CommitDelete(s: IndexState, ns: NsId, key: Key): Result<IndexState, IndexError> {
    if (ns, key) !in s.refs then
      Err(NotFound)
    else
      var ref := s.refs[(ns, key)];
      var rel := ReleaseBlob(s.blobs, s.chunks, ref.blobId);
      var st := StatsOf(s.stats, ns);
      var st' := st.(blobCount := st.blobCount - 1,
                     bytesStored := st.bytesStored - ref.size,
                     chunkCount := st.chunkCount - ref.chunkCount,
                     deadBytes := st.deadBytes + rel.dec.deadBytes,
                     deadChunks := st.deadChunks + rel.dec.deadChunks);
      Ok(IndexState(s.refs - {(ns, key)}, rel.blobs, rel.dec.chunks, s.stats[ns := st']))
  }

  function CommitRenameRef(s: IndexState, ns: NsId, oldKey: Key, newKey: Key): Result<IndexState, IndexError> {
    if (ns, oldKey) !in s.refs then
      Err(NotFound)
    else if (ns, newKey) in s.refs then
      Err(KeyExists)
    else
      var ref := s.refs[(ns, oldKey)].(key := newKey);
      Ok(s.(refs := s.refs[(ns, newKey) := ref] - {(ns, oldKey)}))
  }

  /** One transaction of PurgeDeadBlobs: the manifest goes only if its count is still not positive. */
  function PurgeBlob(s: IndexState, id: BlobId): IndexState {
    if id in s.blobs && s.blobs[id].refCount <= 0 then s.(blobs := s.blobs - {id}) else s
  }

  /** The manifests nobody references. */
  function DeadBlobs(blobs: BlobTable): set<BlobId> {
    set id | id in blobs && blobs[id].refCount == 0
  }

  datatype Reap = Reap(chunks: ChunkTable, safe: bool, recordDeleted: bool)

  function ReapPage(chunks: ChunkTable, id: ChunkId, loc: Loc): Reap {
    if id !in chunks then
      Reap(chunks, true, false)
    else if chunks[id].loc != loc then
      Reap(chunks, true, false)
    else if chunks[id].refCount > 0 then
      Reap(chunks, false, false)
    else
      Reap(chunks - {id}, true, true)
  }

  function ReconcileDeadStats(stats: StatsTable, ns: NsId, deadBytes: int, deadChunks: int): StatsTable {
    var st := StatsOf(stats, ns);
    stats[ns := st.(deadBytes := Max(0, st.deadBytes - deadBytes), deadChunks := Max(0, st.deadChunks - deadChunks))]
  }
}
