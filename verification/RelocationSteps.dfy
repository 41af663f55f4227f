/** One turn of the relocation loop of compaction phase 2, with nothing beside it. */
module RelocationSteps {
  import opened Base
  import opened Records
  import opened Disk
  import opened DoubleEntry
  import opened Ledger
  import opened StoreInvariant
  import opened Bookkeeping
  import Machine = StoreMachine
  import Steps = StoreSteps

  /** No chunk is counted differently. */
  ghost predicate SameCounts(a: ChunkTable, b: ChunkTable) {
    forall c :: CountOf(a, c) == CountOf(b, c)
  }

  lemma SameCountsRefl(a: ChunkTable)
    ensures SameCounts(a, a)
  {
  }

  lemma SameCountsTrans(a: ChunkTable, b: ChunkTable, c: ChunkTable)
    requires SameCounts(a, b) && SameCounts(b, c)
    ensures SameCounts(a, c)
  {
  }

  /** Moving a record without touching its count or length leaves all accounts as they were. */
  lemma RelocateAccounts(cfg: Config, s: IndexState, entry: ChunkEntry)
    requires Accounts(cfg, s) && entry.chunkId in s.chunks
    requires entry.ns == cfg.ns && entry.length == s.chunks[entry.chunkId].length
    ensures var moved := Machine.Carried(entry, s.chunks[entry.chunkId]);
            var s' := s.(chunks := s.chunks[entry.chunkId := moved]);
            && Accounts(cfg, s')
            && SameCounts(s.chunks, s'.chunks)
  {
    var moved := Machine.Carried(entry, s.chunks[entry.chunkId]);
    var s' := s.(chunks := s.chunks[entry.chunkId := moved]);
    DeadTotalsPut(s.chunks, entry.chunkId, moved);
    forall c
      ensures Gap(s', c) == 0
    {
      assert Gap(s, c) == 0;
    }
    forall b
      ensures RefsTo(s'.refs, b) <= BlobCountOf(s'.blobs, b)
    {
      assert RefsTo(s.refs, b) <= BlobCountOf(s.blobs, b);
    }
    forall ns
      ensures var st := StatsOf(s'.stats, ns);
              && st.blobCount == MapSum(s'.refs, OneRef(ns))
              && st.bytesStored == MapSum(s'.refs, RefSize(ns))
              && st.chunkCount == MapSum(s'.refs, RefChunks(ns))
    {
      assert StatsOf(s.stats, ns).blobCount == MapSum(s.refs, OneRef(ns));
    }
  }

  /** A single operation relocating the entries `todo`. */
  function Relocation(idx: IndexState, d: Disk, seg: nat, newSeg: nat, todo: seq<ChunkEntry>): Machine.Store {
    Machine.Store(idx, d, map[], map[0 := Machine.Relocating(seg, newSeg, todo, None)])
  }

  /** One turn of the relocation loop, as the two steps the store machine takes for it. */
  lemma RelocateOneInv(cfg: Config, idx: IndexState, d: Disk, seg: nat, newSeg: nat, todo: seq<ChunkEntry>)
    requires cfg.capacity >= 1 && todo != [] && todo[0].chunkId in idx.chunks
    requires Inv(cfg, Relocation(idx, d, seg, newSeg, todo), IN_ORDER)
    ensures var moved := Machine.Carried(todo[0], idx.chunks[todo[0].chunkId]);
            var idx' := idx.(chunks := idx.chunks[todo[0].chunkId := moved]);
            Inv(cfg, Relocation(idx', d, seg, newSeg, todo[1..]), IN_ORDER)
  {
    var s := Relocation(idx, d, seg, newSeg, todo);
    Steps.FetchKeeps(cfg, s, 0, IN_ORDER);
    RelocateShape(cfg, idx, d, seg, newSeg, todo);
    Steps.RelocateKeeps(cfg, Machine.FetchStep(s, 0), 0, IN_ORDER);
  }

  lemma RelocateShape(cfg: Config, idx: IndexState, d: Disk, seg: nat, newSeg: nat, todo: seq<ChunkEntry>)
    requires todo != [] && todo[0].chunkId in idx.chunks
    ensures var s := Relocation(idx, d, seg, newSeg, todo);
            var id := todo[0].chunkId;
            var idx' := idx.(chunks := idx.chunks[id := Machine.Carried(todo[0], idx.chunks[id])]);
            && Machine.Enabled(s, Machine.Fetch(0))
            && Machine.Enabled(Machine.FetchStep(s, 0), Machine.Relocate(0))
            && Machine.RelocateStep(Machine.FetchStep(s, 0), 0) == Relocation(idx', d, seg, newSeg, todo[1..])
  {
    var s1 := Machine.FetchStep(Relocation(idx, d, seg, newSeg, todo), 0);
    assert s1.procs == map[0 := Machine.Relocating(seg, newSeg, todo, Some(idx.chunks[todo[0].chunkId]))];
    assert Machine.RelocateStep(s1, 0).procs == map[0 := Machine.Relocating(seg, newSeg, todo[1..], None)];
  }

  /** Between two turns everything is in order, and the entries `todo` are still to be committed. */
  ghost predicate Between(cfg: Config, idx: IndexState, d: Disk, seg: nat, newSeg: nat, todo: seq<ChunkEntry>)
    requires cfg.capacity >= 1
  {
    Accounts(cfg, idx) && Inv(cfg, Relocation(idx, d, seg, newSeg, todo), IN_ORDER)
  }

  /** The index with one record relocated. */
  function Moved(idx: IndexState, entry: ChunkEntry): (r: IndexState)
    requires entry.chunkId in idx.chunks
    ensures r.chunks.Keys == idx.chunks.Keys
  {
    idx.(chunks := idx.chunks[entry.chunkId := Machine.Carried(entry, idx.chunks[entry.chunkId])])
  }

  /** The entry and the record are of the same chunk, and both hold it. */
  lemma SameLength(cfg: Config, idx: IndexState, d: Disk, seg: nat, newSeg: nat, todo: seq<ChunkEntry>)
    requires cfg.capacity >= 1 && todo != [] && todo[0].chunkId in idx.chunks
    requires Inv(cfg, Relocation(idx, d, seg, newSeg, todo), IN_ORDER)
    ensures todo[0].ns == cfg.ns && todo[0].length == idx.chunks[todo[0].chunkId].length
  {
    var id := todo[0].chunkId;
    assert ProcOk(cfg, Relocation(idx, d, seg, newSeg, todo), 0, IN_ORDER);
    assert Holds(cfg, d.pages, id, idx.chunks[id]) && Holds(cfg, d.pages, id, todo[0]);
  }

  lemma RelocateOne(cfg: Config, idx: IndexState, d: Disk, seg: nat, newSeg: nat, todo: seq<ChunkEntry>)
    requires cfg.capacity >= 1 && todo != [] && todo[0].chunkId in idx.chunks
    requires Between(cfg, idx, d, seg, newSeg, todo)
    ensures SameCounts(idx.chunks, Moved(idx, todo[0]).chunks)
    ensures Between(cfg, Moved(idx, todo[0]), d, seg, newSeg, todo[1..])
  {
    SameLength(cfg, idx, d, seg, newSeg, todo);
    RelocateAccounts(cfg, idx, todo[0]);
    RelocateOneInv(cfg, idx, d, seg, newSeg, todo);
  }

  lemma BetweenMeans(cfg: Config, idx: IndexState, d: Disk, seg: nat, newSeg: nat, todo: seq<ChunkEntry>)
    requires cfg.capacity >= 1 && Between(cfg, idx, d, seg, newSeg, todo)
    ensures Accounts(cfg, idx) && Core(cfg, idx, d) && WholePages(cfg, d.pages)
  {
  }
}

/** The state between the turns. */
module RelocationLoop {
  import opened Base
  import opened Records
  import opened Disk
  import opened StoreInvariant
  import opened Bookkeeping
  import opened RelocationSteps
  import Machine = StoreMachine

  /** The relocation loop has committed the first `i` entries. */
  ghost predicate Committing(cfg: Config, before: ChunkTable, s: IndexState, d: Disk, seg: nat, newSeg: nat,
                             relocated: seq<ChunkEntry>, i: nat)
    requires cfg.capacity >= 1
  {
    && i <= |relocated|
    && Between(cfg, s, d, seg, newSeg, relocated[i..])
    && SameCounts(before, s.chunks) && s.chunks.Keys == before.Keys
    && (forall j :: 0 <= j < i ==> relocated[j].chunkId in before)
  }

  lemma CommittingStarts(cfg: Config, s: IndexState, d: Disk, seg: nat, newSeg: nat, relocated: seq<ChunkEntry>)
    requires cfg.capacity >= 1 && Between(cfg, s, d, seg, newSeg, relocated)
    ensures Committing(cfg, s.chunks, s, d, seg, newSeg, relocated, 0)
  {
    assert relocated[0..] == relocated;
  }

  lemma CommittingStep(cfg: Config, before: ChunkTable, s: IndexState, d: Disk, seg: nat, newSeg: nat,
                       relocated: seq<ChunkEntry>, i: nat)
    requires cfg.capacity >= 1 && i < |relocated| && Committing(cfg, before, s, d, seg, newSeg, relocated, i)
    requires relocated[i].chunkId in s.chunks
    ensures Committing(cfg, before, Moved(s, relocated[i]), d, seg, newSeg, relocated, i + 1)
  {
    var s' := Moved(s, relocated[i]);
    SuffixStep(relocated, i);
    RelocateOne(cfg, s, d, seg, newSeg, relocated[i..]);
    SameCountsTrans(before, s.chunks, s'.chunks);
  }

  lemma SuffixStep<T>(a: seq<T>, i: nat)
    requires i < |a|
    ensures a[i..][0] == a[i] && a[i..][1..] == a[i + 1..]
  {
  }

  lemma CommittingMeans(cfg: Config, before: ChunkTable, s: IndexState, d: Disk, seg: nat, newSeg: nat,
                        relocated: seq<ChunkEntry>, i: nat)
    requires cfg.capacity >= 1 && Committing(cfg, before, s, d, seg, newSeg, relocated, i)
    ensures Accounts(cfg, s) && Core(cfg, s, d) && WholePages(cfg, d.pages)
    ensures SameCounts(before, s.chunks) && s.chunks.Keys == before.Keys
    ensures i == |relocated| ==> Between(cfg, s, d, seg, newSeg, [])
    ensures i == |relocated| ==> forall j :: 0 <= j < |relocated| ==> relocated[j].chunkId in before
  {
    BetweenMeans(cfg, s, d, seg, newSeg, relocated[i..]);
    if i == |relocated| {
      assert relocated[i..] == [];
    }
  }
}
