/**
 The index as the transactions change it: four tables, updated record by record
 in loops. Each method is proved to leave exactly the state its function in
 IndexSpec.dfy names, so everything proved about those functions holds here.
 */
module IndexStore {
  import opened Base
  import opened Records
  import Spec = IndexSpec

  class Index {
    var refs: RefTable
    var blobs: BlobTable
    var chunks: ChunkTable
    var stats: StatsTable

    function State(): IndexState
      reads this
    {
      IndexState(refs, blobs, chunks, stats)
    }

    constructor ()
      ensures State() == EMPTY_INDEX
    {
      refs, blobs, chunks, stats := map[], map[], map[], map[];
    }

    /** decrementChunkRefTx: a record that reaches zero stays, and its length is reported once. */
    method DecrementChunkRef(cid: ChunkId) returns (deadLen: nat)
      modifies this`chunks
      ensures Spec.DecOne(chunks, deadLen) == Spec.DecChunk(old(chunks), cid)
    {
      deadLen := 0;
      if cid !in chunks {
        return;
      }
      var chunk := chunks[cid];
      if chunk.refCount > 0 {
        chunk := chunk.(refCount := chunk.refCount - 1);
        if chunk.refCount == 0 {
          deadLen := chunk.length;
        }
      }
      chunks := chunks[cid := chunk];
    }

    /** The loop both commits run over the chunk list of a manifest that lost a reference. */
    method DecrementAll(ids: seq<ChunkId>) returns (deadBytes: nat, deadChunks: nat)
      modifies this`chunks
      ensures Spec.Dec(chunks, deadBytes, deadChunks) == Spec.DecChunks(old(chunks), ids)
    {
      deadBytes, deadChunks := 0, 0;
      var i := 0;
      while i < |ids|
        invariant 0 <= i <= |ids|
        invariant Spec.Dec(chunks, deadBytes, deadChunks) == Spec.DecChunks(old(chunks), ids[..i])
      {
        PrefixSnoc(ids, i);
        var deadLen := DecrementChunkRef(ids[i]);
        if deadLen > 0 {
          deadBytes := deadBytes + deadLen;
          deadChunks := deadChunks + 1;
        }
        i := i + 1;
      }
      assert ids[..i] == ids;
    }

    /** Step 3 of CommitPut: reuse the manifest already indexed, or write a fresh one. */
    method UpsertBlob(blob: BlobEntry)
      modifies this`blobs
      ensures blobs == Spec.AddBlob(old(blobs), blob)
    {
      if blob.blobId in blobs {
        var existing := blobs[blob.blobId];
        blobs := blobs[blob.blobId := existing.(refCount := existing.refCount + 1)];
      } else {
        blobs := blobs[blob.blobId := blob.(refCount := 1)];
      }
    }

    /** A manifest and every chunk it lists lose one reference; a missing manifest changes nothing. */
    method ReleaseBlob(id: BlobId) returns (deadBytes: nat, deadChunks: nat)
      modifies this`blobs, this`chunks
      ensures Spec.Release(blobs, Spec.Dec(chunks, deadBytes, deadChunks))
           == Spec.ReleaseBlob(old(blobs), old(chunks), id)
    {
      deadBytes, deadChunks := 0, 0;
      if id in blobs {
        var blob := blobs[id];
        blobs := blobs[id := blob.(refCount := blob.refCount - 1)];
        deadBytes, deadChunks := DecrementAll(blob.chunkIds);
      }
    }

    /** Step 5 of CommitPut: reuse the records this namespace owns, register the rest. */
    method UpsertChunks(ns: NsId, entries: seq<ChunkEntry>)
      returns (revivedBytes: nat, revivedChunks: nat, newBytes: nat, reused: seq<ChunkEntry>)
      modifies this`chunks
      ensures Spec.Upsert(chunks, revivedBytes, revivedChunks, newBytes, reused)
           == Spec.UpsertAll(ns, old(chunks), entries)
    {
      revivedBytes, revivedChunks, newBytes, reused := 0, 0, 0, [];
      var i := 0;
      while i < |entries|
        invariant 0 <= i <= |entries|
        invariant Spec.Upsert(chunks, revivedBytes, revivedChunks, newBytes, reused)
               == Spec.UpsertAll(ns, old(chunks), entries[..i])
      {
        PrefixSnoc(entries, i);
        var chunk := entries[i];
        i := i + 1;
        if chunk.chunkId in chunks {
          var existing := chunks[chunk.chunkId];
          if existing.ns == ns {
            if existing.refCount == 0 {
              revivedBytes := revivedBytes + existing.length;
              revivedChunks := revivedChunks + 1;
            }
            chunks := chunks[chunk.chunkId := existing.(refCount := existing.refCount + 1)];
            reused := reused + [chunk];
            continue;
          }
        }
        chunks := chunks[chunk.chunkId := chunk.(refCount := 1)];
        newBytes := newBytes + chunk.length;
      }
      assert entries[..i] == entries;
    }

    method CommitPut(ref: RefEntry, blob: BlobEntry, entries: seq<ChunkEntry>) returns (reused: seq<ChunkEntry>)
      modifies this
      ensures (State(), reused) == Spec.CommitPut(old(State()), ref, blob, entries)
    {
      var key := (ref.ns, ref.key);
      var prev := if key in refs then Some(refs[key]) else None;
      var sameContent := prev.Some? && prev.value.blobId == ref.blobId;
      refs := refs[key := ref];
      UpsertBlob(blob);

      var deadBytes: nat, deadChunks: nat := 0, 0;
      if prev.Some? && !sameContent {
        deadBytes, deadChunks := ReleaseBlob(prev.value.blobId);
      }
      var revivedBytes, revivedChunks, newBytes;
      revivedBytes, revivedChunks, newBytes, reused := UpsertChunks(ref.ns, entries);

      var st := Records.StatsOf(stats, ref.ns);
      if prev.None? {
        st := st.(blobCount := st.blobCount + 1,
                  bytesStored := st.bytesStored + blob.totalSize,
                  chunkCount := st.chunkCount + |entries|);
      } else if !sameContent {
        st := st.(bytesStored := st.bytesStored + blob.totalSize - prev.value.size,
                  chunkCount := st.chunkCount + |entries| - prev.value.chunkCount);
      }
      st := st.(bytesPhysical := st.bytesPhysical + newBytes,
                deadBytes := st.deadBytes + deadBytes - revivedBytes,
                deadChunks := st.deadChunks + deadChunks - revivedChunks);
      stats := stats[ref.ns := st];
    }

    method CommitDelete(ns: NsId, key: Key) returns (found: bool)
      modifies this
      ensures var r := Spec.CommitDelete(old(State()), ns, key);
              found == r.Ok? && State() == if found then r.value else old(State())
    {
      if (ns, key) !in refs {
        return false;
      }
      var ref := refs[(ns, key)];
      refs := refs - {(ns, key)};
      var st := Records.StatsOf(stats, ns);
      st := st.(blobCount := st.blobCount - 1,
                bytesStored := st.bytesStored - ref.size,
                chunkCount := st.chunkCount - ref.chunkCount);
      var deadBytes, deadChunks := ReleaseBlob(ref.blobId);
      st := st.(deadBytes := st.deadBytes + deadBytes, deadChunks := st.deadChunks + deadChunks);
      stats := stats[ns := st];
      return true;
    }

    method CommitRenameRef(ns: NsId, oldKey: Key, newKey: Key) returns (r: Result<(), IndexError>)
      modifies this`refs
      ensures var want := Spec.CommitRenameRef(old(State()), ns, oldKey, newKey);
              match want
              case Ok(s) => r == Ok(()) && State() == s
              case Err(e) => r == Err(e) && State() == old(State())
    {
      if (ns, oldKey) !in refs {
        return Err(NotFound);
      }
      if (ns, newKey) in refs {
        return Err(KeyExists);
      }
      var ref := refs[(ns, oldKey)].(key := newKey);
      refs := refs[(ns, newKey) := ref];
      refs := refs - {(ns, oldKey)};
      return Ok(());
    }

    /** The scan of PurgeDeadBlobs: the manifests nobody references at this moment. */
    method ScanDeadBlobs() returns (candidates: set<BlobId>)
      ensures candidates == Spec.DeadBlobs(blobs)
    {
      candidates := {};
      var todo := blobs.Keys;
      while todo != {}
        invariant todo <= blobs.Keys
        invariant forall id :: id in candidates <==> id in blobs && id !in todo && blobs[id].refCount == 0
      {
        var id :| id in todo;
        if blobs[id].refCount == 0 {
          candidates := candidates + {id};
        }
        todo := todo - {id};
      }
    }

    /** One transaction of PurgeDeadBlobs, which re-checks the count it is about to act on. */
    method PurgeBlob(id: BlobId) returns (removed: bool)
      modifies this`blobs
      ensures State() == Spec.PurgeBlob(old(State()), id)
      ensures removed == (State() != old(State()))
    {
      removed := id in blobs && blobs[id].refCount <= 0;
      if removed {
        blobs := blobs - {id};
        assert id !in blobs;
      }
    }

    /** PurgeDeadBlobs with nothing in between: exactly the manifests whose count is zero disappear. */
    method PurgeDeadBlobs() returns (removed: nat)
      modifies this`blobs
      ensures blobs == old(blobs) - Spec.DeadBlobs(old(blobs))
      ensures removed == |Spec.DeadBlobs(old(blobs))|
    {
      var candidates := ScanDeadBlobs();
      removed := 0;
      ghost var all, gone := candidates, {};
      while candidates != {}
        invariant candidates !! gone && candidates + gone == all
        invariant blobs == old(blobs) - gone
        invariant removed == |gone|
        decreases |candidates|
      {
        var id :| id in candidates;
        candidates := candidates - {id};
        assert id in blobs && blobs[id] == old(blobs)[id];
        var didRemove := PurgeBlob(id);
        assert didRemove;
        gone := gone + {id};
        removed := removed + 1;
      }
    }

    method ReapPhysicalPageIfDead(id: ChunkId, loc: Loc) returns (safeToReap: bool, recordDeleted: bool)
      modifies this`chunks
      ensures Spec.Reap(chunks, safeToReap, recordDeleted) == Spec.ReapPage(old(chunks), id, loc)
    {
      if id !in chunks {
        return true, false;
      }
      var chunk := chunks[id];
      if chunk.loc.seg != loc.seg || chunk.loc.off != loc.off {
        return true, false;
      }
      if chunk.refCount > 0 {
        return false, false;
      }
      chunks := chunks - {id};
      return true, true;
    }

    method PutChunk(chunk: ChunkEntry)
      modifies this`chunks
      ensures chunks == old(chunks)[chunk.chunkId := chunk]
    {
      chunks := chunks[chunk.chunkId := chunk];
    }

    method PutBlob(blob: BlobEntry)
      modifies this`blobs
      ensures blobs == old(blobs)[blob.blobId := blob]
    {
      blobs := blobs[blob.blobId := blob];
    }

    method ReconcileDeadStats(ns: NsId, deadBytes: int, deadChunks: int)
      modifies this`stats
      ensures stats == Spec.ReconcileDeadStats(old(stats), ns, deadBytes, deadChunks)
    {
      var st := Records.StatsOf(stats, ns);
      st := st.(deadBytes := st.deadBytes - deadBytes);
      if st.deadBytes < 0 {
        st := st.(deadBytes := 0);
      }
      st := st.(deadChunks := st.deadChunks - deadChunks);
      if st.deadChunks < 0 {
        st := st.(deadChunks := 0);
      }
      stats := stats[ns := st];
    }
  }
}
