/**
 The index records of package object, and the typed content of the index.

 A content address is modelled by the content it stands for, so two addresses
 are equal exactly when the contents are: SHA-256 is taken to be collision-free.
 Times, content types and custom metadata are not part of the records.
 */
module Records {
  import opened Base

  datatype Digest = Sha256(content: Bytes)

  type BlobId = Digest
  type ChunkId = Digest
  type NsId = string
  type Key = string

  /** A page position: segment id, and byte or page offset inside that segment. */
  datatype Loc = Loc(seg: nat, off: nat)

  datatype RefEntry = RefEntry(ns: NsId, key: Key, blobId: BlobId, size: nat, chunkCount: nat)

  datatype BlobEntry = BlobEntry(blobId: BlobId, chunkIds: seq<ChunkId>, totalSize: nat, refCount: int)

  /** `nonce` and `tag` are opaque here; only relocation has to carry them. */
  datatype ChunkEntry = ChunkEntry(
    chunkId: ChunkId, ns: NsId, loc: Loc, pageCount: nat, length: nat, seqNo: nat,
    refCount: int, nonce: Bytes, tag: Bytes)

  datatype Stats = Stats(
    blobCount: int, bytesStored: int, bytesPhysical: int, chunkCount: int,
    deadBytes: int, deadChunks: int)

  const ZERO_STATS := Stats(0, 0, 0, 0, 0, 0)

  type RefTable = map<(NsId, Key), RefEntry>
  type BlobTable = map<BlobId, BlobEntry>
  type ChunkTable = map<ChunkId, ChunkEntry>
  type StatsTable = map<NsId, Stats>

  datatype IndexState = IndexState(refs: RefTable, blobs: BlobTable, chunks: ChunkTable, stats: StatsTable)

  const EMPTY_INDEX := IndexState(map[], map[], map[], map[])

  /** GetStats and getStatsTx: a namespace without a record has all-zero stats. */
  function StatsOf(stats: StatsTable, ns: NsId): Stats {
    if ns in stats then stats[ns] else ZERO_STATS
  }

  datatype IndexError = NotFound | KeyExists
}
