/**
 Where the guarantees of the store machine end: the two places in which counts
 or pages go wrong, with the exact condition for each, and why the premises of
 StoreRefinement are needed.
 */
module StoreLimits {
  import opened Base
  import opened Records
  import opened Disk
  import opened IndexSpec
  import opened DoubleEntry
  import opened StoreMachine
  import opened StoreInvariant
  import opened StoreSteps
  import opened ReplaySpec
  import opened Replay
  import opened ReopenSpec
  import opened Reopening
  import opened StoreRuns

  // ---- the premises can be met

  /** Cutting every input into page-sized pieces is a valid single-page chunker. */
  lemma PagewiseChunkerIsValid(ns: NsId, capacity: nat, crc: Bytes -> nat)
    requires capacity >= 1
    ensures var cfg := Config(ns, capacity, b => if b == [] then [] else Slices(b, capacity), crc);
            ValidConfig(cfg) && SinglePage(cfg)
  {
    forall b: Bytes
      ensures Flatten(Slices(b, capacity)) == b
      ensures forall i :: 0 <= i < |Slices(b, capacity)| ==> |Slices(b, capacity)[i]| <= capacity
      ensures b != [] ==> forall i :: 0 <= i < |Slices(b, capacity)| ==> Slices(b, capacity)[i] != []
    {
      SlicesJoin(b, capacity);
      SliceSizes(b, capacity);
    }
  }

  lemma {:induction false} SliceSizes(b: Bytes, capacity: nat)
    requires capacity >= 1
    ensures forall i :: 0 <= i < |Slices(b, capacity)| ==> |Slices(b, capacity)[i]| <= capacity
    ensures b != [] ==> forall i :: 0 <= i < |Slices(b, capacity)| ==> Slices(b, capacity)[i] != []
    decreases |b|
  {
    if |b| > capacity {
      SliceSizes(b[capacity..], capacity);
    }
  }

  // ---- phase 2 against a delete: the lost decrement

  /** References taken from the chunk of the pending relocation since its record was fetched. */
  function Lost(s: Store, a: Action, c: ChunkId): int
    requires Enabled(s, a)
  {
    if a.Relocate? && s.procs[a.p].todo[0].chunkId == c then
      s.procs[a.p].got.value.refCount - CountOf(s.idx.chunks, c)
    else
      0
  }

  /** Every step keeps the gap of every chunk, except that a relocation restores what was taken meanwhile. */
  lemma StepGap(cfg: Config, s: Store, a: Action, c: ChunkId, bad: Disorder)
    requires ValidConfig(cfg) && Inv(cfg, s, bad) && c !in bad.counts && Enabled(s, a) && !a.Crash?
    ensures Gap(Step(cfg, s, a).idx, c) == Gap(s.idx, c) + Lost(s, a, c)
  {
    match a
    case Put(p, key, content, rolls) =>
      var w := WritePieces(cfg, s.disk, cfg.split(content), rolls);
      WritePiecesHolds(cfg, s.disk, cfg.split(content), rolls);
      EntryIdsArePieceIds(cfg, s.disk, w.0, cfg.split(content), w.1);
      PutIndex(cfg, s.idx, key, content, w.1, bad.counts);
    case Delete(key) => DeleteKeepsGaps(s.idx, cfg.ns, key, bad.counts);
    case Rename(o, n) => RenameKeepsGaps(s.idx, cfg.ns, o, n, bad.counts);
    case ReapTx(p) => ReapKeepsGaps(s.idx, s.procs[p].queue[0].0, s.procs[p].queue[0].1, bad.counts);
    case Purge(id) => PurgeKeepsGaps(s.idx, id, bad.counts);
    case Relocate(p) => RelocateGap(s, p);
    case _ =>
  }

  /** All references lost along a run. A chunk that replay registers starts over. */
  function LostIn(cfg: Config, actions: seq<Action>, c: ChunkId): int
    requires cfg.capacity >= 1 && Runs(cfg, actions)
    decreases |actions|
  {
    if actions == [] then
      0
    else
      var init, last := actions[..|actions| - 1], actions[|actions| - 1];
      if last.Crash? && c in NewIds(After(cfg, init).idx, Log(After(cfg, init))) then 0
      else LostIn(cfg, init, c) + Lost(After(cfg, init), last, c)
  }

  lemma CrashGap(cfg: Config, s: Store, c: ChunkId, bad: Disorder)
    requires cfg.capacity >= 1 && Inv(cfg, s, bad) && c !in BadAfterCrash(s, bad).counts
    ensures Gap(CrashStep(s).idx, c) == if c in NewIds(s.idx, Log(s)) then 0 else Gap(s.idx, c)
  {
    ReplayGap(s.idx, Log(s), c);
    UnclaimedIff(s.idx.blobs, c);
  }

  /**
   Double entry over whole runs with compaction and reopens: a chunk's count
   exceeds what the manifests claim by exactly the decrements its relocations have
   overwritten since it was last registered.
   */
  lemma {:induction false} RunGap(cfg: Config, actions: seq<Action>, c: ChunkId)
    requires ValidConfig(cfg) && SinglePage(cfg) && Runs(cfg, actions) && c !in Tainted(cfg, actions).counts
    ensures Gap(After(cfg, actions).idx, c) == LostIn(cfg, actions, c) >= 0
    decreases |actions|
  {
    ReachableInv(cfg, actions);
    assert Gap(After(cfg, actions).idx, c) >= 0;
    if actions != [] {
      var init, last := actions[..|actions| - 1], actions[|actions| - 1];
      var s, bad := After(cfg, init), Tainted(cfg, init);
      ReachableInv(cfg, init);
      if last.Crash? {
        CrashGap(cfg, s, c, bad);
        if c !in NewIds(s.idx, Log(s)) {
          RunGap(cfg, init, c);
        }
      } else {
        RunGap(cfg, init, c);
        StepGap(cfg, s, last, c, bad);
      }
    }
  }

  // ---- which runs lose nothing

  /** References to the chunk that deletes have taken since a record was last fetched for relocation. */
  function Taken(cfg: Config, actions: seq<Action>, c: ChunkId): nat
    requires cfg.capacity >= 1 && Runs(cfg, actions)
    decreases |actions|
  {
    if actions == [] then
      0
    else
      var init, last := actions[..|actions| - 1], actions[|actions| - 1];
      if last.Fetch? then 0
      else Taken(cfg, init, c) + (if last.Delete? then DeleteTakes(After(cfg, init).idx, (cfg.ns, last.key), c) else 0)
  }

  /** How often the blob behind the key lists the chunk; nothing for a key without a ref. */
  function DeleteTakes(idx: IndexState, k: (NsId, Key), c: ChunkId): nat {
    if k in idx.refs && idx.refs[k].blobId in idx.blobs then Mult(idx.blobs[idx.refs[k].blobId].chunkIds, c) else 0
  }

  /** The chunk of the record that operation `p` has fetched. */
  predicate Fetched(s: Store, p: nat) {
    p in s.procs && s.procs[p].Relocating? && s.procs[p].got.Some? && s.procs[p].todo != []
  }

  function FetchedId(s: Store, p: nat): ChunkId
    requires Fetched(s, p)
  {
    s.procs[p].todo[0].chunkId
  }

  /** What the fetched count is ahead of the chunk's count by now. */
  function Ahead(s: Store, p: nat): int
    requires Fetched(s, p)
  {
    s.procs[p].got.value.refCount - CountOf(s.idx.chunks, FetchedId(s, p))
  }

  /** A delete lowers the count of a chunk by what it takes. */
  lemma DeleteLowers(idx: IndexState, ns: NsId, key: Key, c: ChunkId, bad: set<ChunkId>)
    requires SolventBut(idx, bad) && c !in bad
    ensures var r := CommitDelete(idx, ns, key);
            CountOf((if r.Ok? then r.value else idx).chunks, c) == CountOf(idx.chunks, c) - DeleteTakes(idx, (ns, key), c)
  {
    if (ns, key) in idx.refs {
      DeleteCounts(idx, ns, key, c, bad);
    }
  }

  lemma DeleteAhead(cfg: Config, s: Store, key: Key, p: nat, bad: Disorder)
    requires cfg.capacity >= 1 && Inv(cfg, s, bad) && Fetched(s, p) && FetchedId(s, p) !in bad.counts
    ensures var s' := Step(cfg, s, Delete(key));
            && Fetched(s', p) && FetchedId(s', p) == FetchedId(s, p)
            && Ahead(s', p) == Ahead(s, p) + DeleteTakes(s.idx, (cfg.ns, key), FetchedId(s, p))
  {
    DeleteLowers(s.idx, cfg.ns, key, FetchedId(s, p), bad.counts);
  }

  /** While a relocation holds a fetched record only deletes, renames, purges and statistics happen. */
  lemma StepAhead(cfg: Config, s: Store, a: Action, p: nat, bad: Disorder)
    requires cfg.capacity >= 1 && Inv(cfg, s, bad) && Enabled(s, a) && Fetched(Step(cfg, s, a), p)
    requires FetchedId(Step(cfg, s, a), p) !in bad.counts
    ensures var s' := Step(cfg, s, a);
            if a.Fetch? then Ahead(s', p) == 0
            else Fetched(s, p) && FetchedId(s', p) == FetchedId(s, p)
                 && Ahead(s', p) == Ahead(s, p) + (if a.Delete? then DeleteTakes(s.idx, (cfg.ns, a.key), FetchedId(s, p)) else 0)
  {
    var s' := Step(cfg, s, a);
    if a.Fetch? {
      assert ProcOk(cfg, s, a.p, bad);
    } else if Fetched(s, p) {
      OnlyGuardless(cfg, s, a, p, bad);
      if a.Delete? {
        DeleteAhead(cfg, s, a.key, p, bad);
      }
    } else {
      NothingFetches(cfg, s, a, p, bad);
    }
  }

  /** What is possible at all while a relocation holds a fetched record. */
  lemma EnabledMeanwhile(cfg: Config, s: Store, a: Action, p: nat, bad: Disorder)
    requires cfg.capacity >= 1 && Inv(cfg, s, bad) && Enabled(s, a) && Fetched(s, p)
    ensures a.Delete? || a.Rename? || a.Purge? || a.Reconcile? || a.Relocate? || a.Crash?
    ensures a.Relocate? ==> a.p == p
  {
    assert ProcOk(cfg, s, p, bad);
    assert !SharedGuard(s);
  }

  lemma OnlyGuardless(cfg: Config, s: Store, a: Action, p: nat, bad: Disorder)
    requires cfg.capacity >= 1 && Inv(cfg, s, bad) && Enabled(s, a) && Fetched(s, p) && Fetched(Step(cfg, s, a), p)
    ensures a.Delete? || a.Rename? || a.Purge? || a.Reconcile?
    ensures a.Delete? || Step(cfg, s, a).idx.chunks == s.idx.chunks
    ensures Step(cfg, s, a).procs == s.procs
  {
    EnabledMeanwhile(cfg, s, a, p, bad);
    GuardlessSteps(cfg, s, a);
    RelocateForgets(cfg, s, a);
  }

  /** Neither a relocation's write nor a crash leaves a fetched record. */
  lemma RelocateForgets(cfg: Config, s: Store, a: Action)
    requires cfg.capacity >= 1 && Enabled(s, a)
    ensures a.Relocate? ==> !Fetched(Step(cfg, s, a), a.p)
    ensures a.Crash? ==> Step(cfg, s, a).procs == map[]
  {
  }

  lemma GuardlessSteps(cfg: Config, s: Store, a: Action)
    requires cfg.capacity >= 1 && Enabled(s, a)
    ensures a.Delete? || a.Rename? || a.Purge? || a.Reconcile? ==>
              Step(cfg, s, a).procs == s.procs && (a.Delete? || Step(cfg, s, a).idx.chunks == s.idx.chunks)
  {
  }

  lemma NothingFetches(cfg: Config, s: Store, a: Action, p: nat, bad: Disorder)
    requires cfg.capacity >= 1 && Inv(cfg, s, bad) && Enabled(s, a) && !a.Fetch? && !Fetched(s, p)
    ensures !Fetched(Step(cfg, s, a), p)
  {
  }

  /** What a relocation is about to overwrite is what deletes have taken since its fetch. */
  lemma {:induction false} AheadIsTaken(cfg: Config, actions: seq<Action>, p: nat)
    requires ValidConfig(cfg) && SinglePage(cfg) && Runs(cfg, actions) && Fetched(After(cfg, actions), p)
    requires FetchedId(After(cfg, actions), p) !in Tainted(cfg, actions).counts
    ensures Ahead(After(cfg, actions), p) == Taken(cfg, actions, FetchedId(After(cfg, actions), p))
    decreases |actions|
  {
    if actions != [] {
      var init, last := actions[..|actions| - 1], actions[|actions| - 1];
      ReachableInv(cfg, init);
      StepAhead(cfg, After(cfg, init), last, p, Tainted(cfg, init));
      if !last.Fetch? {
        AheadIsTaken(cfg, init, p);
      }
    }
  }

  /** No delete has taken the chunk of a relocation between its fetch and its write. */
  predicate LossFree(cfg: Config, actions: seq<Action>)
    requires cfg.capacity >= 1 && Runs(cfg, actions)
    decreases |actions|
  {
    actions == [] ||
    var init, last := actions[..|actions| - 1], actions[|actions| - 1];
    && LossFree(cfg, init)
    && (last.Relocate? ==> Taken(cfg, init, After(cfg, init).procs[last.p].todo[0].chunkId) == 0)
  }

  lemma LostIsTaken(cfg: Config, init: seq<Action>, a: Action, c: ChunkId)
    requires ValidConfig(cfg) && SinglePage(cfg) && Runs(cfg, init) && Enabled(After(cfg, init), a)
    requires c !in Tainted(cfg, init).counts
    ensures var s := After(cfg, init);
            Lost(s, a, c) == if a.Relocate? && s.procs[a.p].todo[0].chunkId == c then Taken(cfg, init, c) else 0
  {
    if a.Relocate? && After(cfg, init).procs[a.p].todo[0].chunkId == c {
      AheadIsTaken(cfg, init, a.p);
    }
  }

  /** Losses never make up for each other, and a loss-free run has none. */
  lemma {:induction false} LossesAdd(cfg: Config, actions: seq<Action>, c: ChunkId)
    requires ValidConfig(cfg) && SinglePage(cfg) && Runs(cfg, actions) && CleanReopens(cfg, actions)
    ensures LostIn(cfg, actions, c) >= 0
    ensures LossFree(cfg, actions) ==> LostIn(cfg, actions, c) == 0
    decreases |actions|
  {
    if actions != [] {
      var init, last := actions[..|actions| - 1], actions[|actions| - 1];
      LossesAdd(cfg, init, c);
      CleanMeansUntainted(cfg, init);
      LostIsTaken(cfg, init, last, c);
    }
  }

  /** Without reopens a run that has lost nothing is loss-free. */
  lemma {:induction false} NoneLost(cfg: Config, actions: seq<Action>)
    requires ValidConfig(cfg) && SinglePage(cfg) && Runs(cfg, actions) && NoCrash(actions, 0)
    requires forall c :: LostIn(cfg, actions, c) == 0
    ensures LossFree(cfg, actions)
    decreases |actions|
  {
    if actions != [] {
      var init, last := actions[..|actions| - 1], actions[|actions| - 1];
      assert NoCrash(init, 0);
      NoCrashIsClean(cfg, init);
      CleanMeansUntainted(cfg, init);
      forall c
        ensures LostIn(cfg, init, c) == 0 && Lost(After(cfg, init), last, c) == 0
      {
        assert LostIn(cfg, actions, c) == 0;
        LossesAdd(cfg, init, c);
        LostIsTaken(cfg, init, last, c);
      }
      NoneLost(cfg, init);
      if last.Relocate? {
        LostIsTaken(cfg, init, last, After(cfg, init).procs[last.p].todo[0].chunkId);
      }
    }
  }

  lemma BooksIffNoGap(s: IndexState)
    requires Solvent(s)
    ensures Books(s) <==> forall c :: Gap(s, c) == 0
  {
  }

  /**
   Counts equal claims after any run of an open store, compaction included,
   exactly if no delete of a blob with the chunk fell between the fetch and the
   write of any relocation.
   */
  lemma BooksKeptIff(cfg: Config, actions: seq<Action>)
    requires ValidConfig(cfg) && SinglePage(cfg) && Runs(cfg, actions) && NoCrash(actions, 0)
    ensures Books(After(cfg, actions).idx) <==> LossFree(cfg, actions)
  {
    NoCrashIsClean(cfg, actions);
    GapsAreLosses(cfg, actions);
    BooksIffNoGap(After(cfg, actions).idx);
    forall c {
      LossesAdd(cfg, actions, c);
    }
    if Books(After(cfg, actions).idx) {
      forall c
        ensures LostIn(cfg, actions, c) == 0
      {
        assert Gap(After(cfg, actions).idx, c) == 0;
      }
      NoneLost(cfg, actions);
    }
  }

  /** With clean reopens anywhere, such runs keep the books as well. */
  lemma LossFreeKeepsBooks(cfg: Config, actions: seq<Action>)
    requires ValidConfig(cfg) && SinglePage(cfg) && Runs(cfg, actions)
    requires CleanReopens(cfg, actions) && LossFree(cfg, actions)
    ensures Books(After(cfg, actions).idx)
  {
    GapsAreLosses(cfg, actions);
    forall c {
      LossesAdd(cfg, actions, c);
    }
    BooksIffNoGap(After(cfg, actions).idx);
  }

  lemma GapsAreLosses(cfg: Config, actions: seq<Action>)
    requires ValidConfig(cfg) && SinglePage(cfg) && Runs(cfg, actions) && CleanReopens(cfg, actions)
    ensures Solvent(After(cfg, actions).idx)
    ensures forall c :: Gap(After(cfg, actions).idx, c) == LostIn(cfg, actions, c)
  {
    CleanMeansUntainted(cfg, actions);
    ReachableInv(cfg, actions);
    forall c {
      RunGap(cfg, actions, c);
    }
  }

  lemma {:induction false} NoCrashIsClean(cfg: Config, actions: seq<Action>)
    requires cfg.capacity >= 1 && Runs(cfg, actions) && NoCrash(actions, 0)
    ensures CleanReopens(cfg, actions)
    decreases |actions|
  {
    if actions != [] {
      assert NoCrash(actions[..|actions| - 1], 0);
      NoCrashIsClean(cfg, actions[..|actions| - 1]);
    }
  }

  /** Committing a relocation keeps the books exactly when the count has not moved since it was fetched. */
  lemma RelocateKeepsBooksIff(s: Store, p: nat)
    requires Enabled(s, Relocate(p)) && Books(s.idx) && s.procs[p].got.value.refCount >= 0
    ensures Books(RelocateStep(s, p).idx)
       <==> s.procs[p].got.value.refCount == CountOf(s.idx.chunks, s.procs[p].todo[0].chunkId)
  {
    var s' := RelocateStep(s, p);
    RelocateGap(s, p);
    var id := s.procs[p].todo[0].chunkId;
    assert Gap(s.idx, id) == 0;
    forall c | c != id
      ensures Gap(s'.idx, c) == 0
    {
      assert Gap(s.idx, c) == 0;
    }
    forall b
      ensures RefsTo(s'.idx.refs, b) <= BlobCountOf(s'.idx.blobs, b)
    {
      assert RefsTo(s.idx.refs, b) <= BlobCountOf(s.idx.blobs, b);
    }
  }

  /**
   It does move: a delete holds no namespace guard, so it may commit between the
   read and the write of one relocation, and then its decrement is undone. The
   chunk stays counted once for each time the deleted blob held it.
   */
  lemma DeleteDuringRelocationIsLost(s: Store, p: nat, ns: NsId, key: Key)
    requires Books(s.idx) && Enabled(s, Fetch(p)) && (ns, key) in s.idx.refs
    requires s.procs[p].todo[0].chunkId in s.idx.chunks
    ensures var id := s.procs[p].todo[0].chunkId;
            var blob := s.idx.refs[(ns, key)].blobId;
            var fetched := FetchStep(s, p);
            var deleted := fetched.(idx := CommitDelete(fetched.idx, ns, key).value);
            && blob in s.idx.blobs && Enabled(deleted, Relocate(p))
            && Gap(RelocateStep(deleted, p).idx, id) == Mult(s.idx.blobs[blob].chunkIds, id)
  {
    var id := s.procs[p].todo[0].chunkId;
    var fetched := FetchStep(s, p);
    DeleteCounts(s.idx, ns, key, id, {});
    assert fetched == s.(procs := s.procs[p := s.procs[p].(got := Some(s.idx.chunks[id]))]);
    RelocateGap(fetched.(idx := CommitDelete(s.idx, ns, key).value), p);
    assert Gap(s.idx, id) == 0;
  }

  /** A delete takes each chunk of the blob its multiplicity, and the gap stays. */
  lemma DeleteCounts(idx: IndexState, ns: NsId, key: Key, c: ChunkId, bad: set<ChunkId>)
    requires SolventBut(idx, bad) && c !in bad && (ns, key) in idx.refs
    ensures var idx' := CommitDelete(idx, ns, key).value;
            var blob := idx.refs[(ns, key)].blobId;
            && blob in idx.blobs
            && Gap(idx', c) == Gap(idx, c)
            && CountOf(idx'.chunks, c) == CountOf(idx.chunks, c) - Mult(idx.blobs[blob].chunkIds, c)
  {
    ReferencedBlobIsWhole(idx, (ns, key), bad);
    DeleteKeepsGaps(idx, ns, key, bad);
    DecChunksCounts(idx.chunks, idx.blobs[idx.refs[(ns, key)].blobId].chunkIds);
  }

  /** What is lost is lost for as long as the store stays open: no step brings a gap down again. */
  lemma {:induction false} GapNeverFalls(cfg: Config, actions: seq<Action>, n: nat, c: ChunkId)
    requires ValidConfig(cfg) && SinglePage(cfg) && Runs(cfg, actions) && n <= |actions| && NoCrash(actions, n)
    requires c !in Tainted(cfg, actions).counts
    ensures Gap(StateAt(cfg, actions, n).idx, c) <= Gap(After(cfg, actions).idx, c)
    decreases |actions|
  {
    if n == |actions| {
      assert actions[..n] == actions;
    } else {
      var init, last := actions[..|actions| - 1], actions[|actions| - 1];
      assert init[..n] == actions[..n];
      GapNeverFalls(cfg, init, n, c);
      ReachableInv(cfg, init);
      StepGap(cfg, After(cfg, init), last, c, Tainted(cfg, init));
      LostIsTaken(cfg, init, last, c);
    }
  }

  /** A chunk with a gap has a record that no reap transaction removes. */
  lemma GapKeepsRecord(cfg: Config, actions: seq<Action>, c: ChunkId)
    requires ValidConfig(cfg) && SinglePage(cfg) && Runs(cfg, actions) && Gap(After(cfg, actions).idx, c) >= 1
    ensures var chunks := After(cfg, actions).idx.chunks; c in chunks && chunks[c].refCount >= 1
  {
    ReachableInv(cfg, actions);
    OwedCoversManifest(After(cfg, actions).idx.blobs, c, c);
  }

  // ---- chunks of several pages

  /**
   What phase 2 makes of a page of a held chunk: an entry that reads back as the
   chunk exactly when the chunk has that one page. A longer chunk is torn.
   */
  lemma CopyReadsBackIff(cfg: Config, pages: Pages, c: ChunkId, rec: ChunkEntry, l: Loc, copies: Pages, at: Loc)
    requires cfg.capacity >= 1 && Holds(cfg, pages, c, rec) && l in Span(rec.loc, rec.pageCount)
    requires at in copies && copies[at] == pages[l]
    ensures ReadChunk(cfg, copies, CopiedEntry(cfg, pages[l], at)) == Ok(c.content) <==> rec.pageCount == 1
  {
    var slices := Slices(c.content, cfg.capacity);
    var i := l.off - rec.loc.off;
    SlicesJoin(c.content, cfg.capacity);
    SliceSizes(c.content, cfg.capacity);
    assert ReadPages(copies, Loc(at.seg, at.off + 1), 0) == Ok([]);
    assert ReadPages(copies, at, 1) == Ok(slices[i] + []);
    assert slices[i] + [] == slices[i];
    if rec.pageCount == 1 {
      assert slices == [c.content];
    } else {
      assert |slices[i]| < |c.content|;
    }
  }

  /**
   The reap transaction judges a page of a live chunk rightly exactly when it is
   the chunk's first: it compares locations, and only the first page's is recorded.
   */
  lemma LivePageVerdict(cfg: Config, pages: Pages, chunks: ChunkTable, c: ChunkId, l: Loc)
    requires cfg.capacity >= 1 && c in chunks && chunks[c].refCount > 0
    requires Holds(cfg, pages, c, chunks[c]) && l in Span(chunks[c].loc, chunks[c].pageCount)
    ensures ReapPage(chunks, c, l).safe <==> l != chunks[c].loc
    ensures ReadChunk(cfg, MarkDeleted(pages, l), chunks[c]) == Err(Deleted)
  {
    FlaggedSpanReads(cfg, pages, Slices(c.content, cfg.capacity), chunks[c].loc, l);
  }

  lemma {:induction false} FlaggedSpanReads(cfg: Config, pages: Pages, slices: seq<Bytes>, from: Loc, l: Loc)
    requires forall j :: j in Span(from, |slices|) ==> j in pages && !pages[j].deleted
    requires l in Span(from, |slices|)
    ensures ReadPages(MarkDeleted(pages, l), from, |slices|) == Err(Deleted)
    decreases |slices|
  {
    if l != from {
      assert from in Span(from, |slices|);
      var next := Loc(from.seg, from.off + 1);
      assert forall j :: j in Span(next, |slices| - 1) ==> j in Span(from, |slices|);
      FlaggedSpanReads(cfg, pages, slices[1..], next, l);
    }
  }

  // ---- the window between WriteBlob and CommitPut

  /**
   Why a put is one step here. A page written but not committed has no record,
   so a phase 1 that reaches it in between is told it is safe, and the put then
   commits a record for a flagged page: it succeeds, and the chunk cannot be read.
   */
  lemma UncommittedPageIsReaped(cfg: Config, s: Store, data: Bytes, roll: bool)
    requires cfg.capacity >= 1 && Core(cfg, s.idx, s.disk) && Sha256(data) !in s.idx.chunks
    ensures var (d, entry) := WriteChunk(cfg, s.disk, data, 0, roll);
            var pages := MarkDeleted(d.pages, entry.loc);
            var chunks := UpsertAll(cfg.ns, s.idx.chunks, [entry]).chunks;
            && ReapPage(s.idx.chunks, entry.chunkId, entry.loc).safe
            && entry.chunkId in chunks && chunks[entry.chunkId].refCount == 1
            && ReadChunk(cfg, pages, chunks[entry.chunkId]) == Err(Deleted)
  {
    WriteChunkHolds(cfg, s.disk, data, 0, roll);
    var (d, entry) := WriteChunk(cfg, s.disk, data, 0, roll);
    assert entry.loc in Span(entry.loc, entry.pageCount);
    FlaggedSpanReads(cfg, d.pages, Slices(data, cfg.capacity), entry.loc, entry.loc);
    UpsertNew(cfg.ns, s.idx.chunks, entry);
  }

  /** The upsert loop on one chunk without a record. */
  lemma UpsertNew(ns: NsId, chunks: ChunkTable, entry: ChunkEntry)
    requires entry.chunkId !in chunks
    ensures UpsertAll(ns, chunks, [entry]).chunks == chunks[entry.chunkId := entry.(refCount := 1)]
  {
    var none: seq<ChunkEntry> := [];
    assert [entry][..0] == none;
    assert UpsertAll(ns, chunks, none) == Upsert(chunks, 0, 0, 0, []);
  }
}
