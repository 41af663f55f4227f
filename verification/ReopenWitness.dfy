/**
 Two runs of the store that end with a key nobody can read, step by step. The
 first needs a delete, a compaction and a reopen, and then the same content put
 again; the second loses a key that was never touched.
 */
module ReopenWitness {
  import opened Base
  import opened Records
  import opened Disk
  import opened IndexSpec
  import opened DoubleEntry
  import opened ReplaySpec
  import opened StoreMachine
  import opened StoreInvariant
  import opened ReopenSpec
  import opened StoreRuns
  import opened StoreRefinement
  import opened Recovery

  /** The run is possible and ends in this state. */
  predicate Reaches(cfg: Config, run: seq<Action>, s: Store)
    requires cfg.capacity >= 1
  {
    Runs(cfg, run) && After(cfg, run) == s
  }

  lemma ReachesStart(cfg: Config)
    requires cfg.capacity >= 1
    ensures Reaches(cfg, [], EMPTY_STORE)
  {
  }

  /** The next action of the run. */
  lemma Take(cfg: Config, run: seq<Action>, n: nat, s: Store) returns (s': Store)
    requires cfg.capacity >= 1 && n < |run| && Reaches(cfg, run[..n], s) && Enabled(s, run[n])
    ensures s' == Step(cfg, s, run[n]) && Reaches(cfg, run[..n + 1], s')
  {
    s' := Step(cfg, s, run[n]);
    RunsSnoc(cfg, run[..n], run[n]);
    assert run[..n + 1] == run[..n] + [run[n]];
  }

  /** The page and the log entry of a one-page chunk. */
  function PageOf(cfg: Config, x: Bytes, seqNo: nat, deleted: bool): Page {
    Page(Sha256(x), x, cfg.crc(x), seqNo, deleted)
  }

  function EntryOf(cfg: Config, x: Bytes, off: nat, seqNo: nat, n: int): ChunkEntry {
    ChunkEntry(Sha256(x), cfg.ns, Loc(1, off), 1, |x|, seqNo, n, [], [])
  }

  /** A content of one page, cut into itself. */
  predicate OnePiece(cfg: Config, x: Bytes) {
    cfg.split(x) == [x] && 1 <= |x| <= cfg.capacity
  }

  // ---- writing, by hand

  lemma WriteOne(cfg: Config, d: Disk, x: Bytes, seqNo: nat)
    requires cfg.capacity >= 1 && |x| <= cfg.capacity
    requires d.active == Some(1) && 1 in d.ends
    ensures WriteChunk(cfg, d, x, seqNo, false)
         == (d.(pages := d.pages[Loc(1, d.ends[1]) := PageOf(cfg, x, seqNo, false)], ends := d.ends[1 := d.ends[1] + 1]),
             EntryOf(cfg, x, d.ends[1], seqNo, 0))
  {
    var l := Loc(1, d.ends[1]);
    assert Slices(x, cfg.capacity) == [x];
    assert Span(l, 1) == {l};
    assert ChunkPages(l, Sha256(x), [x], cfg.crc(x), seqNo) == map[l := PageOf(cfg, x, seqNo, false)];
    assert d.pages + map[l := PageOf(cfg, x, seqNo, false)] == d.pages[l := PageOf(cfg, x, seqNo, false)];
  }

  /** The disk with the first segment just created. */
  const FIRST_SEGMENT := Disk(map[], map[1 := 0], Some(1), 2)

  lemma WriteFirst(cfg: Config, x: Bytes)
    requires cfg.capacity >= 1 && |x| <= cfg.capacity
    ensures WriteChunk(cfg, EMPTY_DISK, x, 0, false) == WriteChunk(cfg, FIRST_SEGMENT, x, 0, false)
  {
    assert Prepare(EMPTY_DISK, false) == FIRST_SEGMENT == Prepare(FIRST_SEGMENT, false);
  }

  lemma WritePieceList(cfg: Config, d: Disk, x: Bytes)
    requires cfg.capacity >= 1
    ensures WritePieces(cfg, d, [x], []) == (WriteChunk(cfg, d, x, 0, false).0, [WriteChunk(cfg, d, x, 0, false).1])
  {
    var none: seq<Bytes> := [];
    assert [x][..0] == none;
    assert WritePieces(cfg, d, none, []) == (d, []);
    var entries: seq<ChunkEntry> := [];
    var e := WriteChunk(cfg, d, x, 0, false).1;
    assert entries + [e] == [e];
  }

  // ---- the first run

  /** The store with one blob of one chunk, everything but the statistics. */
  predicate Stage(cfg: Config, s: Store, x: Bytes, refs: RefTable, blobs: BlobTable, chunks: ChunkTable,
                  deleted: bool, procs: map<nat, Proc>) {
    && s.idx.refs == refs && s.idx.blobs == blobs && s.idx.chunks == chunks
    && s.disk == Disk(map[Loc(1, 0) := PageOf(cfg, x, 0, deleted)], map[1 := 1], Some(1), 2)
    && s.wal == map[1 := [Logged(Sha256(x), [EntryOf(cfg, x, 0, 0, 0)])]]
    && s.procs == procs
  }

  function RefOf(cfg: Config, x: Bytes, key: Key): RefTable {
    map[(cfg.ns, key) := RefEntry(cfg.ns, key, Sha256(x), |x|, 1)]
  }

  function BlobsOf(x: Bytes, n: int): BlobTable {
    map[Sha256(x) := BlobEntry(Sha256(x), [Sha256(x)], |x|, n)]
  }

  function ChunksOf(cfg: Config, x: Bytes, n: int): ChunkTable {
    map[Sha256(x) := EntryOf(cfg, x, 0, 0, n)]
  }

  lemma FirstCommit(cfg: Config, x: Bytes, key: Key)
    ensures var entries := [EntryOf(cfg, x, 0, 0, 0)];
            var (idx, reused) := CommitPut(EMPTY_INDEX, RefFor(cfg, key, x, entries), BlobFor(x, entries), entries);
            && idx.refs == RefOf(cfg, x, key) && idx.blobs == BlobsOf(x, 1) && idx.chunks == ChunksOf(cfg, x, 1)
            && reused == []
  {
    var e := EntryOf(cfg, x, 0, 0, 0);
    var none: seq<ChunkEntry> := [];
    assert [e][..0] == none;
    assert UpsertAll(cfg.ns, map[], none) == Upsert(map[], 0, 0, 0, []);
    assert UpsertAll(cfg.ns, map[], [e]) == UpsertOne(cfg.ns, Upsert(map[], 0, 0, 0, []), e);
    assert EntryIds([e]) == [Sha256(x)];
  }

  lemma FirstPut(cfg: Config, x: Bytes, key: Key)
    requires cfg.capacity >= 1 && OnePiece(cfg, x)
    ensures Stage(cfg, PutStep(cfg, EMPTY_STORE, 0, key, x, []), x, RefOf(cfg, x, key), BlobsOf(x, 1), ChunksOf(cfg, x, 1),
                  false, map[0 := Marking([])])
  {
    WritePieceList(cfg, EMPTY_DISK, x);
    WriteFirst(cfg, x);
    WriteOne(cfg, FIRST_SEGMENT, x, 0);
    FirstCommit(cfg, x, key);
    assert Locs([]) == [];
    var logged := Logged(Sha256(x), [EntryOf(cfg, x, 0, 0, 0)]);
    assert SegmentLog(map[], 1) + [logged] == [logged];
  }

  lemma ThenDelete(cfg: Config, s: Store, x: Bytes, key: Key)
    requires Stage(cfg, s, x, RefOf(cfg, x, key), BlobsOf(x, 1), ChunksOf(cfg, x, 1), false, map[])
    ensures CommitDelete(s.idx, cfg.ns, key).Ok?
    ensures Stage(cfg, s.(idx := CommitDelete(s.idx, cfg.ns, key).value), x, map[], BlobsOf(x, 0), ChunksOf(cfg, x, 0), false, map[])
  {
    var c := Sha256(x);
    var none: seq<ChunkId> := [];
    assert [c][..0] == none;
    assert DecChunks(s.idx.chunks, none) == Dec(s.idx.chunks, 0, 0);
    assert DecChunks(s.idx.chunks, [c]).chunks == DecChunk(s.idx.chunks, c).chunks;
    assert RefOf(cfg, x, key) - {(cfg.ns, key)} == map[];
  }

  const SCANNING := Sweeping([], None)

  lemma ThenBegin(cfg: Config, run: seq<Action>, n: nat, s: Store, x: Bytes) returns (s': Store)
    requires cfg.capacity >= 1 && n < |run| && Reaches(cfg, run[..n], s) && run[n] == BeginSweep(0)
    requires Stage(cfg, s, x, map[], BlobsOf(x, 0), ChunksOf(cfg, x, 0), false, map[])
    ensures Reaches(cfg, run[..n + 1], s')
    ensures Stage(cfg, s', x, map[], BlobsOf(x, 0), ChunksOf(cfg, x, 0), false, map[0 := SCANNING])
  {
    s' := Take(cfg, run, n, s);
  }

  lemma ThenScan(cfg: Config, run: seq<Action>, n: nat, s: Store, x: Bytes) returns (s': Store)
    requires cfg.capacity >= 1 && n < |run| && Reaches(cfg, run[..n], s) && run[n] == Scan(0, Loc(1, 0))
    requires Stage(cfg, s, x, map[], BlobsOf(x, 0), ChunksOf(cfg, x, 0), false, map[0 := SCANNING])
    ensures Reaches(cfg, run[..n + 1], s')
    ensures Stage(cfg, s', x, map[], BlobsOf(x, 0), ChunksOf(cfg, x, 0), false,
                  map[0 := Sweeping([(Sha256(x), Loc(1, 0))], None)])
  {
    s' := Take(cfg, run, n, s);
    var none: seq<(ChunkId, Loc)> := [];
    assert none + [(Sha256(x), Loc(1, 0))] == [(Sha256(x), Loc(1, 0))];
  }

  lemma ThenReap(cfg: Config, run: seq<Action>, n: nat, s: Store, x: Bytes) returns (s': Store)
    requires cfg.capacity >= 1 && n < |run| && Reaches(cfg, run[..n], s) && run[n] == ReapTx(0)
    requires Stage(cfg, s, x, map[], BlobsOf(x, 0), ChunksOf(cfg, x, 0), false,
                   map[0 := Sweeping([(Sha256(x), Loc(1, 0))], None)])
    ensures Reaches(cfg, run[..n + 1], s')
    ensures Stage(cfg, s', x, map[], BlobsOf(x, 0), map[], false, map[0 := Sweeping([], Some(Loc(1, 0)))])
  {
    s' := Take(cfg, run, n, s);
    assert ChunksOf(cfg, x, 0) - {Sha256(x)} == map[];
    var queue := [(Sha256(x), Loc(1, 0))];
    assert queue[1..] == [];
  }

  lemma ThenMark(cfg: Config, s: Store, x: Bytes)
    requires cfg.capacity >= 1
    requires Stage(cfg, s, x, map[], BlobsOf(x, 0), map[], false, map[0 := Sweeping([], Some(Loc(1, 0)))])
    ensures Enabled(s, MarkPage(0))
    ensures Stage(cfg, Step(cfg, s, MarkPage(0)), x, map[], BlobsOf(x, 0), map[], true, map[0 := SCANNING])
  {
  }

  lemma ThenEnd(cfg: Config, s: Store, x: Bytes)
    requires cfg.capacity >= 1 && Stage(cfg, s, x, map[], BlobsOf(x, 0), map[], true, map[0 := SCANNING])
    ensures Enabled(s, EndSweep(0))
    ensures Stage(cfg, Step(cfg, s, EndSweep(0)), x, map[], BlobsOf(x, 0), map[], true, map[])
  {
    assert map[0 := SCANNING] - {0} == map[];
  }

  lemma ThenPurge(cfg: Config, s: Store, x: Bytes)
    requires cfg.capacity >= 1 && Stage(cfg, s, x, map[], BlobsOf(x, 0), map[], true, map[])
    ensures Stage(cfg, Step(cfg, s, Purge(Sha256(x))), x, map[], map[], map[], true, map[])
  {
    assert BlobsOf(x, 0) - {Sha256(x)} == map[];
  }

  lemma ThenMarked(cfg: Config, s: Store, x: Bytes, key: Key)
    requires cfg.capacity >= 1
    requires Stage(cfg, s, x, RefOf(cfg, x, key), BlobsOf(x, 1), ChunksOf(cfg, x, 1), false, map[0 := Marking([])])
    ensures Enabled(s, MarkDup(0))
    ensures Stage(cfg, Step(cfg, s, MarkDup(0)), x, RefOf(cfg, x, key), BlobsOf(x, 1), ChunksOf(cfg, x, 1), false, map[])
  {
    assert map[0 := Marking([])] - {0} == map[];
  }

  function SweepRun(x: Bytes, key: Key): seq<Action> {
    [Put(0, key, x, []), MarkDup(0), Delete(key), BeginSweep(0), Scan(0, Loc(1, 0)), ReapTx(0), MarkPage(0), EndSweep(0),
     Purge(Sha256(x))]
  }

  lemma PutAndMark(cfg: Config, x: Bytes, key: Key, run: seq<Action>) returns (s: Store)
    requires cfg.capacity >= 1 && OnePiece(cfg, x) && key != ""
    requires |run| >= 2 && run[0] == Put(0, key, x, []) && run[1] == MarkDup(0)
    ensures Reaches(cfg, run[..2], s)
    ensures Stage(cfg, s, x, RefOf(cfg, x, key), BlobsOf(x, 1), ChunksOf(cfg, x, 1), false, map[])
  {
    ReachesStart(cfg);
    assert run[..0] == [];
    FirstPut(cfg, x, key);
    s := Take(cfg, run, 0, EMPTY_STORE);
    ThenMarked(cfg, s, x, key);
    s := Take(cfg, run, 1, s);
  }

  lemma PutAndDelete(cfg: Config, x: Bytes, key: Key, run: seq<Action>) returns (s: Store)
    requires cfg.capacity >= 1 && OnePiece(cfg, x) && key != ""
    requires |run| >= 3 && run[0] == Put(0, key, x, []) && run[1] == MarkDup(0) && run[2] == Delete(key)
    ensures Reaches(cfg, run[..3], s)
    ensures Stage(cfg, s, x, map[], BlobsOf(x, 0), ChunksOf(cfg, x, 0), false, map[])
  {
    s := PutAndMark(cfg, x, key, run);
    ThenDelete(cfg, s, x, key);
    s := Take(cfg, run, 2, s);
  }

  /** A phase 1 up to its verdict. */
  lemma ScanAndReap(cfg: Config, x: Bytes, key: Key) returns (s: Store)
    requires cfg.capacity >= 1 && OnePiece(cfg, x) && key != ""
    ensures Reaches(cfg, SweepRun(x, key)[..6], s)
    ensures Stage(cfg, s, x, map[], BlobsOf(x, 0), map[], false, map[0 := Sweeping([], Some(Loc(1, 0)))])
  {
    var run := SweepRun(x, key);
    s := PutAndDelete(cfg, x, key, run);
    s := ThenBegin(cfg, run, 3, s, x);
    s := ThenScan(cfg, run, 4, s, x);
    s := ThenReap(cfg, run, 5, s, x);
  }

  /** Put, delete and a phase 1 that reaps the page: nothing is left in the index, and the log still has the blob. */
  lemma SweptAway(cfg: Config, x: Bytes, key: Key) returns (s: Store)
    requires cfg.capacity >= 1 && OnePiece(cfg, x) && key != ""
    ensures Reaches(cfg, SweepRun(x, key), s)
    ensures Stage(cfg, s, x, map[], map[], map[], true, map[])
  {
    var run := SweepRun(x, key);
    s := ScanAndReap(cfg, x, key);
    ThenMark(cfg, s, x);
    s := Take(cfg, run, 6, s);
    ThenEnd(cfg, s, x);
    s := Take(cfg, run, 7, s);
    ThenPurge(cfg, s, x);
    s := Take(cfg, run, 8, s);
    assert run[..9] == run;
  }

  lemma NothingTainted(cfg: Config, run: seq<Action>, s: Store)
    requires ValidConfig(cfg) && SinglePage(cfg) && Reaches(cfg, run, s) && NoCrash(run, 0)
    ensures Openable(cfg, s, IN_ORDER)
  {
    var none: seq<Action> := [];
    assert run[..0] == none;
    TaintedSame(cfg, run, 0);
    ReachableInv(cfg, run);
  }

  /** What replay would make of that state: the chunk is registered at its flagged page. */
  lemma SweptIsMisplaced(cfg: Config, s: Store, x: Bytes)
    requires Stage(cfg, s, x, map[], map[], map[], true, map[])
    ensures Misplaced(s, Sha256(x))
  {
    var e := EntryOf(cfg, x, 0, 0, 0);
    var logged := Logged(Sha256(x), [e]);
    assert WholeLog({1}, s.wal, 1) == [];
    assert s.disk.ends.Keys == {1};
    assert Log(s) == [logged];
    assert [logged][..0] == [];
    assert NewChunks(map[], []) == [];
    assert NewChunks(s.idx.blobs, [logged]) == [e];
    assert EntryIds([e])[0] == Sha256(x);
    assert Loc(1, 0) in Span(e.loc, e.pageCount) && !Live(s.disk.pages, Loc(1, 0));
  }

  lemma EndsWithPut(init: seq<Action>, p: nat, key: Key, x: Bytes)
    ensures var m := MapRun(init + [Put(p, key, x, [])]); key in m && m[key] == x
  {
    var run := init + [Put(p, key, x, [])];
    assert run[..|run| - 1] == init;
  }

  lemma ReopenAndPut(cfg: Config, run: seq<Action>, s: Store, key: Key, x: Bytes)
    requires cfg.capacity >= 1 && Reaches(cfg, run, s) && key != "" && x != []
    ensures var more := run + [Crash] + [Put(0, key, x, [])];
            Reaches(cfg, more, PutStep(cfg, CrashStep(s), 0, key, x, []))
  {
    RunsSnoc(cfg, run, Crash);
    RunsSnoc(cfg, run + [Crash], Put(0, key, x, []));
  }

  /**
   A content that has been deleted and compacted is put again after the store has
   been reopened. The put succeeds, and the key cannot be read.
   */
  lemma PutAgainIsUnreadable(cfg: Config, x: Bytes, key: Key)
    requires ValidConfig(cfg) && SinglePage(cfg) && OnePiece(cfg, x) && key != ""
    ensures var run := SweepRun(x, key) + [Crash] + [Put(0, key, x, [])];
            && Runs(cfg, run)
            && key in MapRun(run) && MapRun(run)[key] == x
            && var r := Get(cfg, After(cfg, run), key); r == Err(Read(Missing)) || r == Err(Read(Deleted))
  {
    var s := SweptAway(cfg, x, key);
    NothingTainted(cfg, SweepRun(x, key), s);
    SweptIsMisplaced(cfg, s, x);
    assert PieceIds(cfg.split(x))[0] == Sha256(x);
    PutAfterReopenReadsIff(cfg, s, 0, key, x, [], IN_ORDER);
    ReopenAndPut(cfg, SweepRun(x, key), s, key, x);
    EndsWithPut(SweepRun(x, key) + [Crash], 0, key, x);
  }

  // ---- the second run

  /** A second content that begins with the first one as its first chunk. */
  predicate SharesFirst(cfg: Config, x: Bytes, y: Bytes, z: Bytes) {
    && OnePiece(cfg, x) && cfg.split(y) == [x, z] && 1 <= |z| <= cfg.capacity
    && x != y && x != z
  }

  function SharedEntries(cfg: Config, x: Bytes, z: Bytes): seq<ChunkEntry> {
    [EntryOf(cfg, x, 1, 0, 0), EntryOf(cfg, z, 2, 1, 0)]
  }

  function BothRefs(cfg: Config, x: Bytes, y: Bytes, a: Key, b: Key): RefTable {
    RefOf(cfg, x, a)[(cfg.ns, b) := RefEntry(cfg.ns, b, Sha256(y), |y|, 2)]
  }

  function BothBlobs(x: Bytes, y: Bytes, z: Bytes, n: int): BlobTable {
    BlobsOf(x, 1)[Sha256(y) := BlobEntry(Sha256(y), [Sha256(x), Sha256(z)], |y|, n)]
  }

  function BothChunks(cfg: Config, x: Bytes, z: Bytes, n: int, m: int): ChunkTable {
    map[Sha256(x) := EntryOf(cfg, x, 0, 0, n), Sha256(z) := EntryOf(cfg, z, 2, 1, m)]
  }

  /** The store with both blobs written; the second copy of the shared chunk is a duplicate. */
  predicate Both(cfg: Config, s: Store, x: Bytes, y: Bytes, z: Bytes, refs: RefTable, blobs: BlobTable, chunks: ChunkTable,
                 deleted: bool, procs: map<nat, Proc>) {
    && s.idx.refs == refs && s.idx.blobs == blobs && s.idx.chunks == chunks
    && s.disk == Disk(map[Loc(1, 0) := PageOf(cfg, x, 0, false), Loc(1, 1) := PageOf(cfg, x, 0, deleted),
                          Loc(1, 2) := PageOf(cfg, z, 1, false)], map[1 := 3], Some(1), 2)
    && s.wal == map[1 := [Logged(Sha256(x), [EntryOf(cfg, x, 0, 0, 0)]), Logged(Sha256(y), SharedEntries(cfg, x, z))]]
    && s.procs == procs
  }

  /** Two one-page chunks behind each other. */
  lemma WriteTwo(cfg: Config, d: Disk, x: Bytes, z: Bytes, n: nat)
    requires cfg.capacity >= 1 && |x| <= cfg.capacity && |z| <= cfg.capacity
    requires d.active == Some(1) && 1 in d.ends && d.ends[1] == n
    ensures WritePieces(cfg, d, [x, z], [])
         == (d.(pages := d.pages[Loc(1, n) := PageOf(cfg, x, 0, false)][Loc(1, n + 1) := PageOf(cfg, z, 1, false)],
                ends := d.ends[1 := n + 2]),
             [EntryOf(cfg, x, n, 0, 0), EntryOf(cfg, z, n + 1, 1, 0)])
  {
    WritePieceList(cfg, d, x);
    WriteOne(cfg, d, x, 0);
    var d1 := WriteChunk(cfg, d, x, 0, false).0;
    WriteOne(cfg, d1, z, 1);
    var e1, e2 := EntryOf(cfg, x, n, 0, 0), EntryOf(cfg, z, n + 1, 1, 0);
    assert [x, z][..1] == [x] && [e1] + [e2] == [e1, e2];
    assert WritePieces(cfg, d, [x, z], []) == (WriteChunk(cfg, d1, z, 1, false).0, [e1] + [e2]);
    assert d1.ends[1 := n + 2] == d.ends[1 := n + 2];
  }

  lemma WriteShared(cfg: Config, d: Disk, x: Bytes, z: Bytes)
    requires cfg.capacity >= 1 && |x| <= cfg.capacity && |z| <= cfg.capacity
    requires d == Disk(map[Loc(1, 0) := PageOf(cfg, x, 0, false)], map[1 := 1], Some(1), 2)
    ensures WritePieces(cfg, d, [x, z], [])
         == (Disk(map[Loc(1, 0) := PageOf(cfg, x, 0, false), Loc(1, 1) := PageOf(cfg, x, 0, false),
                      Loc(1, 2) := PageOf(cfg, z, 1, false)], map[1 := 3], Some(1), 2),
             SharedEntries(cfg, x, z))
  {
    WriteTwo(cfg, d, x, z, 1);
    assert d.ends[1 := 3] == map[1 := 3];
    assert d.pages[Loc(1, 1) := PageOf(cfg, x, 0, false)][Loc(1, 2) := PageOf(cfg, z, 1, false)]
        == map[Loc(1, 0) := PageOf(cfg, x, 0, false), Loc(1, 1) := PageOf(cfg, x, 0, false),
               Loc(1, 2) := PageOf(cfg, z, 1, false)];
  }

  lemma SharedUpsert(cfg: Config, x: Bytes, z: Bytes)
    requires x != z
    ensures var u := UpsertAll(cfg.ns, ChunksOf(cfg, x, 1), SharedEntries(cfg, x, z));
            u.chunks == BothChunks(cfg, x, z, 2, 1) && u.reused == [EntryOf(cfg, x, 1, 0, 0)]
  {
    var e1, e2 := EntryOf(cfg, x, 1, 0, 0), EntryOf(cfg, z, 2, 1, 0);
    var none: seq<ChunkEntry> := [];
    var u0 := UpsertAll(cfg.ns, ChunksOf(cfg, x, 1), none);
    assert [e1][..0] == none && [e1, e2][..1] == [e1];
    var u1 := UpsertAll(cfg.ns, ChunksOf(cfg, x, 1), [e1]);
    assert u1 == UpsertOne(cfg.ns, u0, e1);
    assert u1.reused == [e1];
    assert UpsertAll(cfg.ns, ChunksOf(cfg, x, 1), [e1, e2]) == UpsertOne(cfg.ns, u1, e2);
  }

  lemma SecondCommit(cfg: Config, idx: IndexState, x: Bytes, y: Bytes, z: Bytes, a: Key, b: Key)
    requires SharesFirst(cfg, x, y, z) && a != b
    requires idx.refs == RefOf(cfg, x, a) && idx.blobs == BlobsOf(x, 1) && idx.chunks == ChunksOf(cfg, x, 1)
    ensures var entries := SharedEntries(cfg, x, z);
            var (idx', reused) := CommitPut(idx, RefFor(cfg, b, y, entries), BlobFor(y, entries), entries);
            && idx'.refs == BothRefs(cfg, x, y, a, b) && idx'.blobs == BothBlobs(x, y, z, 1)
            && idx'.chunks == BothChunks(cfg, x, z, 2, 1) && reused == [EntryOf(cfg, x, 1, 0, 0)]
  {
    var entries := SharedEntries(cfg, x, z);
    SharedUpsert(cfg, x, z);
    assert EntryIds(entries) == [Sha256(x), Sha256(z)];
    assert Replaced(idx, RefFor(cfg, b, y, entries)).None?;
  }

  lemma SecondPut(cfg: Config, s: Store, x: Bytes, y: Bytes, z: Bytes, a: Key, b: Key)
    requires cfg.capacity >= 1 && SharesFirst(cfg, x, y, z) && a != b
    requires Stage(cfg, s, x, RefOf(cfg, x, a), BlobsOf(x, 1), ChunksOf(cfg, x, 1), false, map[])
    ensures Both(cfg, PutStep(cfg, s, 0, b, y, []), x, y, z, BothRefs(cfg, x, y, a, b), BothBlobs(x, y, z, 1),
                 BothChunks(cfg, x, z, 2, 1), false, map[0 := Marking([Loc(1, 1)])])
  {
    WriteShared(cfg, s.disk, x, z);
    SecondCommit(cfg, s.idx, x, y, z, a, b);
    SecondLog(cfg, WritePieces(cfg, s.disk, [x, z], []).0, x, y, z);
    assert Locs([EntryOf(cfg, x, 1, 0, 0)]) == [Loc(1, 1)];
  }

  lemma SecondLog(cfg: Config, d: Disk, x: Bytes, y: Bytes, z: Bytes)
    requires d.active == Some(1)
    ensures LogBlob(map[1 := [Logged(Sha256(x), [EntryOf(cfg, x, 0, 0, 0)])]], d, y, SharedEntries(cfg, x, z))
         == map[1 := [Logged(Sha256(x), [EntryOf(cfg, x, 0, 0, 0)]), Logged(Sha256(y), SharedEntries(cfg, x, z))]]
  {
    var l1, l2 := Logged(Sha256(x), [EntryOf(cfg, x, 0, 0, 0)]), Logged(Sha256(y), SharedEntries(cfg, x, z));
    assert [l1] + [l2] == [l1, l2];
  }

  lemma ThenSecondPut(cfg: Config, run: seq<Action>, n: nat, s: Store, x: Bytes, y: Bytes, z: Bytes, a: Key, b: Key)
    returns (s': Store)
    requires ValidConfig(cfg) && SharesFirst(cfg, x, y, z) && a != b && b != ""
    requires n < |run| && Reaches(cfg, run[..n], s) && run[n] == Put(0, b, y, [])
    requires Stage(cfg, s, x, RefOf(cfg, x, a), BlobsOf(x, 1), ChunksOf(cfg, x, 1), false, map[])
    ensures Reaches(cfg, run[..n + 1], s')
    ensures Both(cfg, s', x, y, z, BothRefs(cfg, x, y, a, b), BothBlobs(x, y, z, 1), BothChunks(cfg, x, z, 2, 1), false,
                 map[0 := Marking([Loc(1, 1)])])
  {
    SecondPut(cfg, s, x, y, z, a, b);
    assert Flatten([x, z]) == y;
    s' := Take(cfg, run, n, s);
  }

  lemma MarkOneDup(cfg: Config, s: Store, x: Bytes, y: Bytes, z: Bytes, refs: RefTable, blobs: BlobTable, chunks: ChunkTable)
    requires Both(cfg, s, x, y, z, refs, blobs, chunks, false, map[0 := Marking([Loc(1, 1)])])
    ensures Both(cfg, MarkDupStep(s, 0), x, y, z, refs, blobs, chunks, true, map[0 := Marking([])])
  {
    var none: seq<Loc> := [];
    assert [Loc(1, 1)][1..] == none;
  }

  lemma MarkNoDup(cfg: Config, s: Store, x: Bytes, y: Bytes, z: Bytes, refs: RefTable, blobs: BlobTable, chunks: ChunkTable)
    requires Both(cfg, s, x, y, z, refs, blobs, chunks, true, map[0 := Marking([])])
    ensures Both(cfg, MarkDupStep(s, 0), x, y, z, refs, blobs, chunks, true, map[])
  {
    assert map[0 := Marking([])] - {0} == map[];
  }

  lemma ThenMarkDup(cfg: Config, run: seq<Action>, n: nat, s: Store, x: Bytes, y: Bytes, z: Bytes,
                    refs: RefTable, blobs: BlobTable, chunks: ChunkTable) returns (s': Store)
    requires cfg.capacity >= 1 && n + 1 < |run| && Reaches(cfg, run[..n], s) && run[n] == run[n + 1] == MarkDup(0)
    requires Both(cfg, s, x, y, z, refs, blobs, chunks, false, map[0 := Marking([Loc(1, 1)])])
    ensures Reaches(cfg, run[..n + 2], s')
    ensures Both(cfg, s', x, y, z, refs, blobs, chunks, true, map[])
  {
    MarkOneDup(cfg, s, x, y, z, refs, blobs, chunks);
    s' := Take(cfg, run, n, s);
    MarkNoDup(cfg, s', x, y, z, refs, blobs, chunks);
    s' := Take(cfg, run, n + 1, s');
  }

  lemma SharedDelete(cfg: Config, x: Bytes, z: Bytes)
    requires x != z
    ensures DecChunks(BothChunks(cfg, x, z, 2, 1), [Sha256(x), Sha256(z)]).chunks == BothChunks(cfg, x, z, 1, 0)
  {
    var chunks := BothChunks(cfg, x, z, 2, 1);
    var cx, cz := Sha256(x), Sha256(z);
    var none: seq<ChunkId> := [];
    assert [cx][..0] == none && [cx, cz][..1] == [cx];
    assert DecChunks(chunks, none) == Dec(chunks, 0, 0);
    assert DecChunks(chunks, [cx]).chunks == DecChunk(chunks, cx).chunks;
    assert DecChunks(chunks, [cx, cz]).chunks == DecChunk(DecChunks(chunks, [cx]).chunks, cz).chunks;
  }

  lemma ThenSecondDelete(cfg: Config, run: seq<Action>, n: nat, s: Store, x: Bytes, y: Bytes, z: Bytes, a: Key, b: Key)
    returns (s': Store)
    requires cfg.capacity >= 1 && SharesFirst(cfg, x, y, z) && a != b
    requires n < |run| && Reaches(cfg, run[..n], s) && run[n] == Delete(b)
    requires Both(cfg, s, x, y, z, BothRefs(cfg, x, y, a, b), BothBlobs(x, y, z, 1), BothChunks(cfg, x, z, 2, 1), true, map[])
    ensures Reaches(cfg, run[..n + 1], s')
    ensures Both(cfg, s', x, y, z, RefOf(cfg, x, a), BothBlobs(x, y, z, 0), BothChunks(cfg, x, z, 1, 0), true, map[])
  {
    SharedDelete(cfg, x, z);
    assert BothRefs(cfg, x, y, a, b) - {(cfg.ns, b)} == RefOf(cfg, x, a);
    assert BothBlobs(x, y, z, 0) == BothBlobs(x, y, z, 1)[Sha256(y) := BothBlobs(x, y, z, 1)[Sha256(y)].(refCount := 0)];
    s' := Take(cfg, run, n, s);
  }

  lemma ThenSecondPurge(cfg: Config, run: seq<Action>, n: nat, s: Store, x: Bytes, y: Bytes, z: Bytes, a: Key)
    returns (s': Store)
    requires cfg.capacity >= 1 && SharesFirst(cfg, x, y, z)
    requires n < |run| && Reaches(cfg, run[..n], s) && run[n] == Purge(Sha256(y))
    requires Both(cfg, s, x, y, z, RefOf(cfg, x, a), BothBlobs(x, y, z, 0), BothChunks(cfg, x, z, 1, 0), true, map[])
    ensures Reaches(cfg, run[..n + 1], s')
    ensures Both(cfg, s', x, y, z, RefOf(cfg, x, a), BlobsOf(x, 1), BothChunks(cfg, x, z, 1, 0), true, map[])
  {
    assert BothBlobs(x, y, z, 0) - {Sha256(y)} == BlobsOf(x, 1);
    s' := Take(cfg, run, n, s);
  }

  /** The shared chunk is registered again where its duplicate is. */
  lemma SharedIsMisplaced(cfg: Config, s: Store, x: Bytes, y: Bytes, z: Bytes, a: Key)
    requires SharesFirst(cfg, x, y, z)
    requires Both(cfg, s, x, y, z, RefOf(cfg, x, a), BlobsOf(x, 1), BothChunks(cfg, x, z, 1, 0), true, map[])
    ensures Misplaced(s, Sha256(x))
  {
    var l1, l2 := Logged(Sha256(x), [EntryOf(cfg, x, 0, 0, 0)]), Logged(Sha256(y), SharedEntries(cfg, x, z));
    var e1, e2 := EntryOf(cfg, x, 1, 0, 0), EntryOf(cfg, z, 2, 1, 0);
    assert s.disk.ends.Keys == {1};
    assert WholeLog({1}, s.wal, 1) == [];
    assert Log(s) == [l1, l2];
    assert [l1, l2][..1] == [l1] && [l1][..0] == [];
    assert NewChunks(s.idx.blobs, [l1]) == [];
    assert Replayed(s.idx.blobs, [l1, l2], 1);
    assert NewChunks(s.idx.blobs, [l1, l2]) == [e1, e2];
    assert EntryIds([e1, e2])[0] == Sha256(x) && [e1, e2][..1] == [e1];
    assert LastOf([e1, e2], Sha256(x)) == LastOf([e1], Sha256(x)) == e1;
    assert Loc(1, 1) in Span(e1.loc, e1.pageCount) && !Live(s.disk.pages, Loc(1, 1));
  }

  function SharedRun(x: Bytes, y: Bytes, a: Key, b: Key): seq<Action> {
    [Put(0, a, x, []), MarkDup(0), Put(0, b, y, []), MarkDup(0), MarkDup(0), Delete(b), Purge(Sha256(y))]
  }

  lemma SharedAndMarked(cfg: Config, x: Bytes, y: Bytes, z: Bytes, a: Key, b: Key, run: seq<Action>) returns (s: Store)
    requires ValidConfig(cfg) && SharesFirst(cfg, x, y, z) && a != b && a != "" && b != ""
    requires |run| >= 5 && run[0] == Put(0, a, x, []) && run[2] == Put(0, b, y, [])
    requires run[1] == run[3] == run[4] == MarkDup(0)
    ensures Reaches(cfg, run[..5], s)
    ensures Both(cfg, s, x, y, z, BothRefs(cfg, x, y, a, b), BothBlobs(x, y, z, 1), BothChunks(cfg, x, z, 2, 1), true, map[])
  {
    s := PutAndMark(cfg, x, a, run);
    s := ThenSecondPut(cfg, run, 2, s, x, y, z, a, b);
    s := ThenMarkDup(cfg, run, 3, s, x, y, z, BothRefs(cfg, x, y, a, b), BothBlobs(x, y, z, 1), BothChunks(cfg, x, z, 2, 1));
  }

  lemma SharedAndPurged(cfg: Config, x: Bytes, y: Bytes, z: Bytes, a: Key, b: Key) returns (s: Store)
    requires ValidConfig(cfg) && SharesFirst(cfg, x, y, z) && a != b && a != "" && b != ""
    ensures Reaches(cfg, SharedRun(x, y, a, b), s)
    ensures Both(cfg, s, x, y, z, RefOf(cfg, x, a), BlobsOf(x, 1), BothChunks(cfg, x, z, 1, 0), true, map[])
  {
    var run := SharedRun(x, y, a, b);
    s := SharedAndMarked(cfg, x, y, z, a, b, run);
    s := ThenSecondDelete(cfg, run, 5, s, x, y, z, a, b);
    s := ThenSecondPurge(cfg, run, 6, s, x, y, z, a);
    assert run[..7] == run;
  }

  /**
   A key nobody touched becomes unreadable by reopening the store: another blob
   that shared a chunk with it was deleted and its manifest purged, and replay
   moves the shared chunk's record to the duplicate page of that blob, which was
   flagged when it was written.
   */
  lemma UntouchedKeyIsLost(cfg: Config, x: Bytes, y: Bytes, z: Bytes, a: Key, b: Key)
    requires ValidConfig(cfg) && SinglePage(cfg) && SharesFirst(cfg, x, y, z) && a != b && a != "" && b != ""
    ensures var run := SharedRun(x, y, a, b);
            && Runs(cfg, run) && Runs(cfg, run + [Crash])
            && Get(cfg, After(cfg, run), a) == Ok(x)
            && var r := Get(cfg, After(cfg, run + [Crash]), a); r == Err(Read(Missing)) || r == Err(Read(Deleted))
  {
    var s := SharedAndPurged(cfg, x, y, z, a, b);
    NothingTainted(cfg, SharedRun(x, y, a, b), s);
    GetReads(cfg, s, a, IN_ORDER);
    SharedIsMisplaced(cfg, s, x, y, z, a);
    assert PieceIds(cfg.split(x))[0] == Sha256(x);
    GetAfterReopenIff(cfg, s, a, IN_ORDER);
    RunsSnoc(cfg, SharedRun(x, y, a, b), Crash);
  }

  // ---- contents and a configuration for which all this is meant

  /** One-byte pages, and a chunker that cuts every input into bytes. */
  function Bytewise(b: Bytes): seq<Bytes> {
    if b == [] then [] else Slices(b, 1)
  }

  lemma WitnessesExist(ns: NsId, crc: Bytes -> nat)
    ensures var cfg := Config(ns, 1, Bytewise, crc);
            ValidConfig(cfg) && SinglePage(cfg) && OnePiece(cfg, [7]) && SharesFirst(cfg, [7], [7, 8], [8])
  {
    forall b: Bytes
      ensures Flatten(Bytewise(b)) == b
      ensures forall i :: 0 <= i < |Bytewise(b)| ==> |Bytewise(b)[i]| == 1
    {
      SlicesJoin(b, 1);
      OneByteSlices(b);
    }
    var b: Bytes := [7, 8];
    assert b[1..] == [8] && b[..1] == [7];
    assert Slices(b, 1) == [[7]] + Slices([8], 1) == [[7], [8]];
  }

  lemma {:induction false} OneByteSlices(b: Bytes)
    ensures b != [] ==> forall i :: 0 <= i < |Slices(b, 1)| ==> |Slices(b, 1)[i]| == 1
    decreases |b|
  {
    if |b| > 1 {
      OneByteSlices(b[1..]);
    }
  }
}
