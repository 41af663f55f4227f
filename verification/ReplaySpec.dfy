/**
 The write-ahead log of a namespace, and what replaying it does to the index.
 A log entry is one blob with its chunks in the order they were written; each
 segment has a log of its own, and replay goes through them by segment id.
 */
module ReplaySpec {
  import opened Base
  import opened Records
  import opened IndexSpec

  datatype Logged = Logged(blobId: BlobId, chunks: seq<ChunkEntry>)

  /** The log of each segment that has one. */
  type Wals = map<nat, seq<Logged>>

  function SegmentLog(wal: Wals, seg: nat): seq<Logged> {
    if seg in wal then wal[seg] else []
  }

  function AppendLog(wal: Wals, seg: nat, e: Logged): Wals {
    wal[seg := SegmentLog(wal, seg) + [e]]
  }

  /** The logs of the existing segments below `n`, in segment order. */
  function WholeLog(segments: set<nat>, wal: Wals, n: nat): seq<Logged> {
    if n == 0 then
      []
    else
      WholeLog(segments, wal, n - 1) + (if n - 1 in segments then SegmentLog(wal, n - 1) else [])
  }

  // ---- the loops of replayWAL

  function TotalLength(chunks: seq<ChunkEntry>): nat {
    if chunks == [] then 0 else TotalLength(chunks[..|chunks| - 1]) + chunks[|chunks| - 1].length
  }

  function PutChunks(table: ChunkTable, chunks: seq<ChunkEntry>): ChunkTable {
    if chunks == [] then
      table
    else
      var last := chunks[|chunks| - 1];
      PutChunks(table, chunks[..|chunks| - 1])[last.chunkId := last.(refCount := 1)]
  }

  function Manifest(e: Logged): BlobEntry {
    BlobEntry(e.blobId, EntryIds(e.chunks), TotalLength(e.chunks), 1)
  }

  function ReplayOne(s: IndexState, e: Logged): IndexState {
    if e.blobId in s.blobs then
      s
    else
      s.(chunks := PutChunks(s.chunks, e.chunks), blobs := s.blobs[e.blobId := Manifest(e)])
  }

  function ReplayAll(s: IndexState, log: seq<Logged>): IndexState {
    if log == [] then s else ReplayOne(ReplayAll(s, log[..|log| - 1]), log[|log| - 1])
  }

  // ---- which entries count, read off the log and the manifests before replay

  /** Entry `i` is the first one to log its blob. */
  predicate FirstLogged(log: seq<Logged>, i: nat)
    requires i < |log|
  {
    forall j :: 0 <= j < i ==> log[j].blobId != log[i].blobId
  }

  /** The entries that are replayed: the first one of each blob without a manifest. */
  predicate Replayed(blobs: BlobTable, log: seq<Logged>, i: nat)
    requires i < |log|
  {
    log[i].blobId !in blobs && FirstLogged(log, i)
  }

  /** Their chunks, in log order. */
  function NewChunks(blobs: BlobTable, log: seq<Logged>): seq<ChunkEntry> {
    if log == [] then
      []
    else
      var n := |log| - 1;
      NewChunks(blobs, log[..n]) + (if Replayed(blobs, log, n) then log[n].chunks else [])
  }

  /** The last entry for a chunk. */
  function LastOf(entries: seq<ChunkEntry>, c: ChunkId): (e: ChunkEntry)
    requires c in EntryIds(entries)
    ensures e in entries && e.chunkId == c
    decreases |entries|
  {
    var n := |entries| - 1;
    if entries[n].chunkId == c then
      entries[n]
    else
      assert entries[..n + 1] == entries;
      assert EntryIds(entries)[..n] == EntryIds(entries[..n]);
      LastOf(entries[..n], c)
  }

  /** No manifest with references lists the chunk. */
  predicate Unclaimed(blobs: BlobTable, c: ChunkId) {
    forall b :: b in blobs && blobs[b].refCount > 0 ==> c !in blobs[b].chunkIds
  }
}
