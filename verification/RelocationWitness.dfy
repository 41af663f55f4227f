/** A run of the store, compaction phase 2 with one delete in it, after which a chunk is never freed. */
module RelocationWitness {
  import opened Base
  import opened Records
  import opened Disk
  import opened IndexSpec
  import opened DoubleEntry
  import opened StoreMachine
  import opened StoreInvariant
  import opened StoreRuns
  import opened StoreLimits
  import opened ReopenWitness

  /** Put a blob, roll to a second segment, and rewrite the first one with the delete in between. */
  function LossRun(x: Bytes, key: Key): seq<Action> {
    [Put(0, key, x, []), MarkDup(0), AbortedPut(x, 1, [true]), BeginExclusive(0), Rewrite(0, 1),
     Fetch(0), Delete(key), Relocate(0)]
  }

  /** The blob is stored, its segment is sealed. */
  predicate Sealed(cfg: Config, s: Store, x: Bytes, key: Key, procs: map<nat, Proc>) {
    && s.idx.refs == RefOf(cfg, x, key) && s.idx.blobs == BlobsOf(x, 1) && s.idx.chunks == ChunksOf(cfg, x, 1)
    && 1 in s.disk.ends && s.disk.ends[1] == 1 && s.disk.active == Some(2)
    && Loc(1, 0) in s.disk.pages && s.disk.pages[Loc(1, 0)] == PageOf(cfg, x, 0, false)
    && s.procs == procs
  }

  lemma ThenRoll(cfg: Config, run: seq<Action>, s: Store, x: Bytes, key: Key) returns (s': Store)
    requires cfg.capacity >= 1 && OnePiece(cfg, x) && 2 < |run| && run[2] == AbortedPut(x, 1, [true])
    requires Reaches(cfg, run[..2], s)
    requires Stage(cfg, s, x, RefOf(cfg, x, key), BlobsOf(x, 1), ChunksOf(cfg, x, 1), false, map[])
    ensures Reaches(cfg, run[..3], s') && Sealed(cfg, s', x, key, map[])
  {
    s' := Take(cfg, run, 2, s);
    var none: seq<Bytes> := [];
    assert [x][..0] == none;
    assert WritePieces(cfg, s.disk, none, [true]) == (s.disk, []);
    var d := Prepare(s.disk, true);
    assert d.active == Some(2) && d.ends[2] == 0;
    assert s'.disk == WriteChunk(cfg, s.disk, x, 0, true).0;
  }

  lemma ThenRewrite(cfg: Config, run: seq<Action>, s: Store, x: Bytes, key: Key) returns (s': Store)
    requires cfg.capacity >= 1 && 4 < |run| && run[3] == BeginExclusive(0) && run[4] == Rewrite(0, 1)
    requires Reaches(cfg, run[..3], s) && Sealed(cfg, s, x, key, map[])
    ensures Reaches(cfg, run[..5], s') && s'.idx == s.idx
    ensures 0 in s'.procs && s'.procs[0].Relocating? && s'.procs[0].got.None?
    ensures |s'.procs[0].todo| == 1 && s'.procs[0].todo[0].chunkId == Sha256(x)
  {
    var s1 := Take(cfg, run, 3, s);
    s' := Take(cfg, run, 4, s1);
    var none: seq<nat> := [];
    assert LivePages(s1.disk.pages, 1, 0) == none;
    assert LivePages(s1.disk.pages, 1, 1) == none + [0];
  }

  lemma {:induction false} WithoutRelocation(cfg: Config, run: seq<Action>)
    requires cfg.capacity >= 1 && Runs(cfg, run) && forall a :: a in run ==> !a.Relocate?
    ensures LossFree(cfg, run)
    decreases |run|
  {
    if run != [] {
      WithoutRelocation(cfg, run[..|run| - 1]);
    }
  }

  lemma TakeTwo(cfg: Config, run: seq<Action>, s: Store, key: Key)
    requires cfg.capacity >= 1 && |run| == 8 && run[5] == Fetch(0) && run[6] == Delete(key)
    requires Reaches(cfg, run[..5], s) && Enabled(s, Fetch(0))
    requires CommitDelete(FetchStep(s, 0).idx, cfg.ns, key).Ok?
    ensures var fetched := FetchStep(s, 0);
            Reaches(cfg, run[..7], fetched.(idx := CommitDelete(fetched.idx, cfg.ns, key).value))
  {
    var s1 := Take(cfg, run, 5, s);
    var s2 := Take(cfg, run, 6, s1);
  }

  lemma TakeThree(cfg: Config, run: seq<Action>, s: Store, key: Key)
    requires cfg.capacity >= 1 && |run| == 8 && run[5] == Fetch(0) && run[6] == Delete(key) && run[7] == Relocate(0)
    requires Reaches(cfg, run[..5], s) && Enabled(s, Fetch(0))
    requires CommitDelete(FetchStep(s, 0).idx, cfg.ns, key).Ok?
    requires var fetched := FetchStep(s, 0);
             Enabled(fetched.(idx := CommitDelete(fetched.idx, cfg.ns, key).value), Relocate(0))
    ensures var fetched := FetchStep(s, 0);
            Reaches(cfg, run, RelocateStep(fetched.(idx := CommitDelete(fetched.idx, cfg.ns, key).value), 0))
  {
    TakeTwo(cfg, run, s, key);
    var fetched := FetchStep(s, 0);
    var s3 := Take(cfg, run, 7, fetched.(idx := CommitDelete(fetched.idx, cfg.ns, key).value));
    assert run[..8] == run;
  }

  /** The delete lowers the count to zero, and the relocation writes one again. */
  lemma LossShape(cfg: Config, s: Store, x: Bytes, key: Key)
    requires s.idx.refs == RefOf(cfg, x, key) && s.idx.blobs == BlobsOf(x, 1) && s.idx.chunks == ChunksOf(cfg, x, 1)
    requires 0 in s.procs && s.procs[0].Relocating? && s.procs[0].got.None?
    requires |s.procs[0].todo| == 1 && s.procs[0].todo[0].chunkId == Sha256(x)
    requires CommitDelete(FetchStep(s, 0).idx, cfg.ns, key).Ok?
    ensures var fetched := FetchStep(s, 0);
            var lost := RelocateStep(fetched.(idx := CommitDelete(fetched.idx, cfg.ns, key).value), 0);
            && lost.idx.refs == map[]
            && Sha256(x) in lost.idx.chunks && lost.idx.chunks[Sha256(x)].refCount == 1
  {
    assert RefOf(cfg, x, key) - {(cfg.ns, key)} == map[];
  }

  lemma ThenLose(cfg: Config, run: seq<Action>, s: Store, x: Bytes, key: Key) returns (s': Store)
    requires cfg.capacity >= 1 && |run| == 8 && run[5] == Fetch(0) && run[6] == Delete(key) && run[7] == Relocate(0)
    requires Reaches(cfg, run[..5], s) && Books(s.idx)
    requires s.idx.refs == RefOf(cfg, x, key) && s.idx.blobs == BlobsOf(x, 1) && s.idx.chunks == ChunksOf(cfg, x, 1)
    requires 0 in s.procs && s.procs[0].Relocating? && s.procs[0].got.None?
    requires |s.procs[0].todo| == 1 && s.procs[0].todo[0].chunkId == Sha256(x)
    ensures Reaches(cfg, run, s') && Gap(s'.idx, Sha256(x)) == 1 && s'.idx.refs == map[]
    ensures Sha256(x) in s'.idx.chunks && s'.idx.chunks[Sha256(x)].refCount == 1
  {
    DeleteDuringRelocationIsLost(s, 0, cfg.ns, key);
    TakeThree(cfg, run, s, key);
    LossShape(cfg, s, x, key);
    var fetched := FetchStep(s, 0);
    s' := RelocateStep(fetched.(idx := CommitDelete(fetched.idx, cfg.ns, key).value), 0);
    assert Mult([Sha256(x)], Sha256(x)) == 1;
  }

  lemma BooksBeforeLoss(cfg: Config, x: Bytes, key: Key, s: Store)
    requires ValidConfig(cfg) && SinglePage(cfg) && Reaches(cfg, LossRun(x, key)[..5], s)
    ensures Books(s.idx)
  {
    var run := LossRun(x, key)[..5];
    assert run == [Put(0, key, x, []), MarkDup(0), AbortedPut(x, 1, [true]), BeginExclusive(0), Rewrite(0, 1)];
    WithoutRelocation(cfg, run);
    BooksKeptIff(cfg, run);
  }

  lemma UpToRewrite(cfg: Config, x: Bytes, key: Key, run: seq<Action>) returns (s: Store)
    requires cfg.capacity >= 1 && OnePiece(cfg, x) && key != "" && |run| >= 5
    requires run[0] == Put(0, key, x, []) && run[1] == MarkDup(0) && run[2] == AbortedPut(x, 1, [true])
    requires run[3] == BeginExclusive(0) && run[4] == Rewrite(0, 1)
    ensures Reaches(cfg, run[..5], s)
    ensures s.idx.refs == RefOf(cfg, x, key) && s.idx.blobs == BlobsOf(x, 1) && s.idx.chunks == ChunksOf(cfg, x, 1)
    ensures 0 in s.procs && s.procs[0].Relocating? && s.procs[0].got.None?
    ensures |s.procs[0].todo| == 1 && s.procs[0].todo[0].chunkId == Sha256(x)
  {
    s := PutAndMark(cfg, x, key, run);
    s := ThenRoll(cfg, run, s, x, key);
    s := ThenRewrite(cfg, run, s, x, key);
  }

  lemma LoseIn(cfg: Config, x: Bytes, key: Key) returns (s: Store)
    requires ValidConfig(cfg) && SinglePage(cfg) && OnePiece(cfg, x) && key != ""
    ensures Reaches(cfg, LossRun(x, key), s) && Gap(s.idx, Sha256(x)) == 1 && s.idx.refs == map[]
    ensures Sha256(x) in s.idx.chunks && s.idx.chunks[Sha256(x)].refCount == 1
  {
    var run := LossRun(x, key);
    s := UpToRewrite(cfg, x, key, run);
    BooksBeforeLoss(cfg, x, key, s);
    s := ThenLose(cfg, run, s, x, key);
  }

  /**
   The run ends without any ref, and the chunk is still counted once. Whatever
   follows while the store stays open, compactions included, the chunk keeps a
   record with a positive count: its page is never freed.
   */
  lemma ChunkIsNeverFreed(cfg: Config, x: Bytes, key: Key, more: seq<Action>)
    requires ValidConfig(cfg) && SinglePage(cfg) && OnePiece(cfg, x) && key != ""
    ensures Runs(cfg, LossRun(x, key))
    ensures var s := After(cfg, LossRun(x, key));
            s.idx.refs == map[] && Sha256(x) in s.idx.chunks && s.idx.chunks[Sha256(x)].refCount == 1
    ensures var all := LossRun(x, key) + more;
            Runs(cfg, all) && NoCrash(more, 0) ==>
              var s := After(cfg, all);
              && Gap(s.idx, Sha256(x)) >= 1
              && Sha256(x) in s.idx.chunks && s.idx.chunks[Sha256(x)].refCount >= 1
  {
    var s := LoseIn(cfg, x, key);
    var run := LossRun(x, key);
    if Runs(cfg, run + more) && NoCrash(more, 0) {
      StaysLost(cfg, run, more, Sha256(x));
    }
  }

  lemma StaysLost(cfg: Config, run: seq<Action>, more: seq<Action>, c: ChunkId)
    requires ValidConfig(cfg) && SinglePage(cfg) && Runs(cfg, run) && Runs(cfg, run + more)
    requires NoCrash(run, 0) && NoCrash(more, 0) && Gap(After(cfg, run).idx, c) >= 1
    ensures var s := After(cfg, run + more);
            Gap(s.idx, c) >= 1 && c in s.idx.chunks && s.idx.chunks[c].refCount >= 1
  {
    var all := run + more;
    assert all[..|run|] == run;
    forall k | 0 <= k < |all|
      ensures !all[k].Crash?
    {
      assert all[k] == if k < |run| then run[k] else more[k - |run|];
    }
    NoCrashIsClean(cfg, all);
    CleanMeansUntainted(cfg, all);
    GapNeverFalls(cfg, all, |run|, c);
    GapKeepsRecord(cfg, all, c);
  }
}
