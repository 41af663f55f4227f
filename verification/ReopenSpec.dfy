/** What a store looks like when it is opened, and which chunks that leaves in disorder. */
module ReopenSpec {
  import opened Base
  import opened Records
  import opened Disk
  import opened IndexSpec
  import opened DoubleEntry
  import opened ReplaySpec
  import opened StoreMachine
  import opened StoreInvariant

  /** The chunks replay of the log registers. */
  function NewIds(idx: IndexState, log: seq<Logged>): seq<ChunkId> {
    EntryIds(NewChunks(idx.blobs, log))
  }

  /** Replay counts the chunk once, but its log entries claim it more often, or a manifest claims it as well. */
  predicate Miscounted(s: Store, c: ChunkId) {
    c in NewIds(s.idx, Log(s)) && !(Mult(NewIds(s.idx, Log(s)), c) == 1 && Unclaimed(s.idx.blobs, c))
  }

  /** Replay points the chunk's record at pages that are flagged or gone. */
  predicate Misplaced(s: Store, c: ChunkId) {
    c in NewIds(s.idx, Log(s)) && !Intact(s.disk.pages, LastOf(NewChunks(s.idx.blobs, Log(s)), c))
  }

  /** What a reopen leaves in disorder: all of it can be seen before the store is opened. */
  function Disordered(s: Store): Disorder {
    Disorder(set c | c in NewIds(s.idx, Log(s)) && Miscounted(s, c), set c | c in NewIds(s.idx, Log(s)) && Misplaced(s, c))
  }

  function Elsewhere(s: Store, ids: set<ChunkId>): set<ChunkId> {
    set c | c in ids && c !in NewIds(s.idx, Log(s))
  }

  /** What is in disorder after a reopen if `bad` was before it. */
  function BadAfterCrash(s: Store, bad: Disorder): Disorder {
    Disorder(Elsewhere(s, bad.counts) + Disordered(s).counts, Elsewhere(s, bad.places) + Disordered(s).places)
  }

  /** Held by its record, if it has one. */
  predicate InPlace(cfg: Config, s: Store, c: ChunkId)
    requires cfg.capacity >= 1
  {
    c in s.idx.chunks ==> Holds(cfg, s.disk.pages, c, s.idx.chunks[c])
  }

  /** The record that replay gives a registered chunk is this namespace's and holds. */
  predicate LastHolds(cfg: Config, pages: Pages, added: seq<ChunkEntry>, c: ChunkId)
    requires cfg.capacity >= 1 && c in EntryIds(added)
  {
    LastOf(added, c).ns == cfg.ns && Holds(cfg, pages, c, LastOf(added, c))
  }

  predicate RecordGood(cfg: Config, pages: Pages, chunks: ChunkTable, c: ChunkId)
    requires cfg.capacity >= 1
  {
    c in chunks ==> chunks[c].ns == cfg.ns && Holds(cfg, pages, c, chunks[c])
  }

  lemma RecordsGood(cfg: Config, pages: Pages, chunks: ChunkTable)
    requires cfg.capacity >= 1
    ensures RecordsHold(cfg, pages, chunks) <==> forall c :: RecordGood(cfg, pages, chunks, c)
  {
    if forall c :: RecordGood(cfg, pages, chunks, c) {
      forall c | c in chunks
        ensures chunks[c].ns == cfg.ns && Holds(cfg, pages, c, chunks[c])
      {
        assert RecordGood(cfg, pages, chunks, c);
      }
    }
  }

  /** The index, the disk and the log, with no operation in progress. */
  ghost predicate Openable(cfg: Config, s: Store, bad: Disorder)
    requires cfg.capacity >= 1
  {
    CoreBut(cfg, s.idx, s.disk, bad) && LogOk(cfg, s.disk, s.wal)
  }
}
