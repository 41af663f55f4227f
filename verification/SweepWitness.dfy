/**
 A run of the store in which a sweep takes a chunk that a key still needs: two
 keys share a blob, a put of other content with the same chunk is cut off before
 its commit, and replay counts the chunk once for all of them.
 */
module SweepWitness {
  import opened Base
  import opened Records
  import opened Disk
  import opened IndexSpec
  import opened DoubleEntry
  import opened ReplaySpec
  import opened StoreMachine
  import opened StoreInvariant
  import opened ReopenSpec
  import opened StoreRuns
  import opened StoreRefinement
  import opened ReopenWitness

  /** A second content that is the first one twice. */
  predicate Doubles(cfg: Config, x: Bytes, y: Bytes) {
    OnePiece(cfg, x) && cfg.split(y) == [x, x]
  }

  function SharedBlobRun(x: Bytes, y: Bytes, a: Key, b: Key): seq<Action> {
    [Put(0, a, x, []), MarkDup(0), Put(0, b, x, []), RejectedPut(y, []), Crash,
     Delete(a), BeginSweep(0), Scan(0, Loc(1, 3)), ReapTx(0)]
  }

  function TwoRefs(cfg: Config, x: Bytes, a: Key, b: Key): RefTable {
    RefOf(cfg, x, a)[(cfg.ns, b) := RefEntry(cfg.ns, b, Sha256(x), |x|, 1)]
  }

  /** The tables, and what the log and the disk have to be before the crash. */
  predicate Shelf(cfg: Config, s: Store, x: Bytes, refs: RefTable, log: seq<Logged>, n: nat) {
    && s.idx.refs == refs && s.idx.blobs == BlobsOf(x, 2) && s.idx.chunks == ChunksOf(cfg, x, 2)
    && s.wal == map[1 := log]
    && s.disk.active == Some(1) && s.disk.ends == map[1 := n] && s.disk.nextSeg == 2
    && SharedGuard(s)
  }

  function LoggedOnce(cfg: Config, x: Bytes, off: nat): Logged {
    Logged(Sha256(x), [EntryOf(cfg, x, off, 0, 0)])
  }

  function LoggedTwice(cfg: Config, x: Bytes, y: Bytes): Logged {
    Logged(Sha256(y), [EntryOf(cfg, x, 2, 0, 0), EntryOf(cfg, x, 3, 1, 0)])
  }

  /** The other key's put finds the blob and its chunk. */
  lemma SameBlobCommit(cfg: Config, idx: IndexState, x: Bytes, a: Key, b: Key)
    requires a != b
    requires idx.refs == RefOf(cfg, x, a) && idx.blobs == BlobsOf(x, 1) && idx.chunks == ChunksOf(cfg, x, 1)
    ensures var entries := [EntryOf(cfg, x, 1, 0, 0)];
            var idx' := CommitPut(idx, RefFor(cfg, b, x, entries), BlobFor(x, entries), entries).0;
            && idx'.refs == TwoRefs(cfg, x, a, b) && idx'.blobs == BlobsOf(x, 2) && idx'.chunks == ChunksOf(cfg, x, 2)
  {
    var e := EntryOf(cfg, x, 1, 0, 0);
    var none: seq<ChunkEntry> := [];
    assert [e][..0] == none;
    var u0 := UpsertAll(cfg.ns, ChunksOf(cfg, x, 1), none);
    assert UpsertAll(cfg.ns, ChunksOf(cfg, x, 1), [e]) == UpsertOne(cfg.ns, u0, e);
    assert Replaced(idx, RefFor(cfg, b, x, [e])).None?;
  }

  lemma WriteAgain(cfg: Config, d: Disk, x: Bytes)
    requires cfg.capacity >= 1 && |x| <= cfg.capacity && d.active == Some(1) && d.ends == map[1 := 1] && d.nextSeg == 2
    ensures var w := WritePieces(cfg, d, [x], []);
            w.1 == [EntryOf(cfg, x, 1, 0, 0)] && w.0.active == Some(1) && w.0.ends == map[1 := 2] && w.0.nextSeg == 2
  {
    WritePieceList(cfg, d, x);
    WriteOne(cfg, d, x, 0);
    assert d.ends[1 := 2] == map[1 := 2];
  }

  lemma LogOther(cfg: Config, d: Disk, x: Bytes)
    requires d.active == Some(1)
    ensures LogBlob(map[1 := [LoggedOnce(cfg, x, 0)]], d, x, [EntryOf(cfg, x, 1, 0, 0)])
         == map[1 := [LoggedOnce(cfg, x, 0), LoggedOnce(cfg, x, 1)]]
  {
    assert [LoggedOnce(cfg, x, 0)] + [LoggedOnce(cfg, x, 1)] == [LoggedOnce(cfg, x, 0), LoggedOnce(cfg, x, 1)];
  }

  lemma PutOther(cfg: Config, s: Store, x: Bytes, a: Key, b: Key)
    requires cfg.capacity >= 1 && OnePiece(cfg, x) && a != b
    requires Stage(cfg, s, x, RefOf(cfg, x, a), BlobsOf(x, 1), ChunksOf(cfg, x, 1), false, map[])
    ensures Shelf(cfg, PutStep(cfg, s, 0, b, x, []), x, TwoRefs(cfg, x, a, b), [LoggedOnce(cfg, x, 0), LoggedOnce(cfg, x, 1)], 2)
  {
    var w := WritePieces(cfg, s.disk, [x], []);
    WriteAgain(cfg, s.disk, x);
    SameBlobCommit(cfg, s.idx, x, a, b);
    LogOther(cfg, w.0, x);
  }

  lemma WriteDoubled(cfg: Config, d: Disk, x: Bytes, n: nat)
    requires cfg.capacity >= 1 && |x| <= cfg.capacity && d.active == Some(1) && d.ends == map[1 := n] && d.nextSeg == 2
    ensures var w := WritePieces(cfg, d, [x, x], []);
            && w.1 == [EntryOf(cfg, x, n, 0, 0), EntryOf(cfg, x, n + 1, 1, 0)]
            && w.0.active == Some(1) && w.0.ends == map[1 := n + 2] && w.0.nextSeg == 2
            && Loc(1, n + 1) in w.0.pages && w.0.pages[Loc(1, n + 1)] == PageOf(cfg, x, 1, false)
  {
    WriteTwo(cfg, d, x, x, n);
    Placed(d, WritePieces(cfg, d, [x, x], []).0, n, PageOf(cfg, x, 0, false), PageOf(cfg, x, 1, false));
  }

  lemma Placed(d: Disk, d': Disk, n: nat, p: Page, q: Page)
    requires d.ends == map[1 := n]
    requires d' == d.(pages := d.pages[Loc(1, n) := p][Loc(1, n + 1) := q], ends := d.ends[1 := n + 2])
    ensures d'.ends == map[1 := n + 2] && Loc(1, n + 1) in d'.pages && d'.pages[Loc(1, n + 1)] == q
    ensures d'.active == d.active && d'.nextSeg == d.nextSeg
  {
    assert d.ends[1 := n + 2] == map[1 := n + 2];
  }

  lemma LogDoubled(cfg: Config, d: Disk, x: Bytes, y: Bytes)
    requires d.active == Some(1)
    ensures LogBlob(map[1 := [LoggedOnce(cfg, x, 0), LoggedOnce(cfg, x, 1)]], d, y,
                    [EntryOf(cfg, x, 2, 0, 0), EntryOf(cfg, x, 3, 1, 0)])
         == map[1 := [LoggedOnce(cfg, x, 0), LoggedOnce(cfg, x, 1), LoggedTwice(cfg, x, y)]]
  {
    var l0, l1, l2 := LoggedOnce(cfg, x, 0), LoggedOnce(cfg, x, 1), LoggedTwice(cfg, x, y);
    assert [l0, l1] + [l2] == [l0, l1, l2];
  }

  lemma CutOff(cfg: Config, s: Store, x: Bytes, y: Bytes, refs: RefTable)
    requires cfg.capacity >= 1 && Doubles(cfg, x, y)
    requires Shelf(cfg, s, x, refs, [LoggedOnce(cfg, x, 0), LoggedOnce(cfg, x, 1)], 2)
    ensures var s' := RejectedPutStep(cfg, s, y, []);
            && Shelf(cfg, s', x, refs, [LoggedOnce(cfg, x, 0), LoggedOnce(cfg, x, 1), LoggedTwice(cfg, x, y)], 4)
            && Loc(1, 3) in s'.disk.pages && s'.disk.pages[Loc(1, 3)] == PageOf(cfg, x, 1, false)
  {
    WriteDoubled(cfg, s.disk, x, 2);
    LogDoubled(cfg, WritePieces(cfg, s.disk, [x, x], []).0, x, y);
  }

  /** Both keys, and the blob that was cut off, whose chunk is counted `n` times. */
  predicate Overdue(cfg: Config, s: Store, x: Bytes, y: Bytes, refs: RefTable, m: int, chunks: ChunkTable,
                    procs: map<nat, Proc>) {
    && s.idx.refs == refs && Sha256(x) in s.idx.blobs
    && s.idx.blobs[Sha256(x)] == BlobEntry(Sha256(x), [Sha256(x)], |x|, m)
    && s.idx.chunks == chunks && s.procs == procs
    && Loc(1, 3) in s.disk.pages && s.disk.pages[Loc(1, 3)] == PageOf(cfg, x, 1, false)
  }

  function LastPlace(cfg: Config, x: Bytes, n: int): ChunkTable {
    map[Sha256(x) := EntryOf(cfg, x, 3, 1, n)]
  }

  lemma ReplayTwice(cfg: Config, idx: IndexState, x: Bytes, y: Bytes)
    requires idx.blobs == BlobsOf(x, 2) && idx.chunks == ChunksOf(cfg, x, 2) && x != y
    ensures var log := [LoggedOnce(cfg, x, 0), LoggedOnce(cfg, x, 1), LoggedTwice(cfg, x, y)];
            var idx' := ReplayAll(idx, log);
            && idx'.refs == idx.refs && idx'.chunks == LastPlace(cfg, x, 1)
            && Sha256(x) in idx'.blobs && idx'.blobs[Sha256(x)] == idx.blobs[Sha256(x)]
  {
    var l0, l1, l2 := LoggedOnce(cfg, x, 0), LoggedOnce(cfg, x, 1), LoggedTwice(cfg, x, y);
    var none: seq<Logged> := [];
    assert [l0][..0] == none && [l0, l1][..1] == [l0] && [l0, l1, l2][..2] == [l0, l1];
    assert ReplayAll(idx, none) == idx && ReplayAll(idx, [l0]) == idx && ReplayAll(idx, [l0, l1]) == idx;
    var e2, e3 := EntryOf(cfg, x, 2, 0, 0), EntryOf(cfg, x, 3, 1, 0);
    var empty: seq<ChunkEntry> := [];
    assert [e2][..0] == empty && [e2, e3][..1] == [e2];
    assert PutChunks(idx.chunks, empty) == idx.chunks;
    assert PutChunks(idx.chunks, [e2]) == idx.chunks[Sha256(x) := e2.(refCount := 1)];
    assert PutChunks(idx.chunks, [e2, e3]) == PutChunks(idx.chunks, [e2])[Sha256(x) := e3.(refCount := 1)];
    assert PutChunks(idx.chunks, [e2, e3]) == LastPlace(cfg, x, 1);
  }

  lemma ReopenOverdue(cfg: Config, s: Store, x: Bytes, y: Bytes, refs: RefTable)
    requires x != y && Shelf(cfg, s, x, refs, [LoggedOnce(cfg, x, 0), LoggedOnce(cfg, x, 1), LoggedTwice(cfg, x, y)], 4)
    requires Loc(1, 3) in s.disk.pages && s.disk.pages[Loc(1, 3)] == PageOf(cfg, x, 1, false)
    ensures Overdue(cfg, CrashStep(s), x, y, refs, 2, LastPlace(cfg, x, 1), map[])
  {
    assert s.disk.ends.Keys == {1};
    assert WholeLog({1}, s.wal, 1) == [];
    assert Log(s) == [LoggedOnce(cfg, x, 0), LoggedOnce(cfg, x, 1), LoggedTwice(cfg, x, y)];
    ReplayTwice(cfg, s.idx, x, y);
  }

  // ---- after the open

  /** One key goes, and with it the one reference that is counted. */
  lemma DeleteOverdue(cfg: Config, s: Store, x: Bytes, y: Bytes, a: Key, b: Key)
    requires cfg.capacity >= 1 && a != b && Overdue(cfg, s, x, y, TwoRefs(cfg, x, a, b), 2, LastPlace(cfg, x, 1), map[])
    ensures var s' := Step(cfg, s, Delete(a));
            (cfg.ns, b) in s'.idx.refs && Overdue(cfg, s', x, y, s'.idx.refs, 1, LastPlace(cfg, x, 0), map[])
    ensures Step(cfg, s, Delete(a)).idx.refs == TwoRefs(cfg, x, a, b) - {(cfg.ns, a)}
  {
    var c := Sha256(x);
    var none: seq<ChunkId> := [];
    assert [c][..0] == none;
    assert DecChunks(s.idx.chunks, none) == Dec(s.idx.chunks, 0, 0);
    assert DecChunks(s.idx.chunks, [c]).chunks == DecChunk(s.idx.chunks, c).chunks;
    assert LastPlace(cfg, x, 1)[c := EntryOf(cfg, x, 3, 1, 0)] == LastPlace(cfg, x, 0);
  }

  lemma BeginOverdue(cfg: Config, s: Store, x: Bytes, y: Bytes, refs: RefTable)
    requires cfg.capacity >= 1 && Overdue(cfg, s, x, y, refs, 1, LastPlace(cfg, x, 0), map[])
    ensures Enabled(s, BeginSweep(0))
    ensures Overdue(cfg, Step(cfg, s, BeginSweep(0)), x, y, refs, 1, LastPlace(cfg, x, 0), map[0 := SCANNING])
  {
  }

  lemma ScanOverdue(cfg: Config, s: Store, x: Bytes, y: Bytes, refs: RefTable)
    requires cfg.capacity >= 1 && Overdue(cfg, s, x, y, refs, 1, LastPlace(cfg, x, 0), map[0 := SCANNING])
    ensures Enabled(s, Scan(0, Loc(1, 3)))
    ensures Overdue(cfg, Step(cfg, s, Scan(0, Loc(1, 3))), x, y, refs, 1, LastPlace(cfg, x, 0),
                    map[0 := Sweeping([(Sha256(x), Loc(1, 3))], None)])
  {
    var none: seq<(ChunkId, Loc)> := [];
    assert none + [(Sha256(x), Loc(1, 3))] == [(Sha256(x), Loc(1, 3))];
  }

  lemma ReapOverdue(cfg: Config, s: Store, x: Bytes, y: Bytes, refs: RefTable)
    requires cfg.capacity >= 1
    requires Overdue(cfg, s, x, y, refs, 1, LastPlace(cfg, x, 0), map[0 := Sweeping([(Sha256(x), Loc(1, 3))], None)])
    ensures Enabled(s, ReapTx(0))
    ensures Overdue(cfg, Step(cfg, s, ReapTx(0)), x, y, refs, 1, map[], map[0 := Sweeping([], Some(Loc(1, 3)))])
  {
    assert LastPlace(cfg, x, 0) - {Sha256(x)} == map[];
    assert [(Sha256(x), Loc(1, 3))][1..] == [];
  }

  lemma UpToCrash(cfg: Config, x: Bytes, y: Bytes, a: Key, b: Key, run: seq<Action>) returns (s: Store)
    requires ValidConfig(cfg) && Doubles(cfg, x, y) && a != b && a != "" && b != "" && |run| == 9
    requires run[0] == Put(0, a, x, []) && run[1] == MarkDup(0) && run[2] == Put(0, b, x, [])
    requires run[3] == RejectedPut(y, []) && run[4] == Crash
    ensures Reaches(cfg, run[..5], s)
    ensures Overdue(cfg, s, x, y, TwoRefs(cfg, x, a, b), 2, LastPlace(cfg, x, 1), map[])
  {
    s := PutAndMark(cfg, x, a, run);
    PutOther(cfg, s, x, a, b);
    s := Take(cfg, run, 2, s);
    CutOff(cfg, s, x, y, TwoRefs(cfg, x, a, b));
    s := Take(cfg, run, 3, s);
    ReopenOverdue(cfg, s, x, y, TwoRefs(cfg, x, a, b));
    s := Take(cfg, run, 4, s);
  }

  lemma UpToScan(cfg: Config, x: Bytes, y: Bytes, a: Key, b: Key, run: seq<Action>, s0: Store) returns (s: Store)
    requires cfg.capacity >= 1 && a != b && |run| == 9 && run[5] == Delete(a) && run[6] == BeginSweep(0)
    requires Reaches(cfg, run[..5], s0) && Overdue(cfg, s0, x, y, TwoRefs(cfg, x, a, b), 2, LastPlace(cfg, x, 1), map[])
    ensures Reaches(cfg, run[..7], s)
    ensures Overdue(cfg, s, x, y, TwoRefs(cfg, x, a, b) - {(cfg.ns, a)}, 1, LastPlace(cfg, x, 0), map[0 := SCANNING])
  {
    DeleteOverdue(cfg, s0, x, y, a, b);
    s := Take(cfg, run, 5, s0);
    BeginOverdue(cfg, s, x, y, TwoRefs(cfg, x, a, b) - {(cfg.ns, a)});
    s := Take(cfg, run, 6, s);
  }

  lemma UpToSweep(cfg: Config, x: Bytes, y: Bytes, a: Key, b: Key, run: seq<Action>, s0: Store) returns (s: Store)
    requires cfg.capacity >= 1 && a != b && |run| == 9
    requires run[5] == Delete(a) && run[6] == BeginSweep(0) && run[7] == Scan(0, Loc(1, 3)) && run[8] == ReapTx(0)
    requires Reaches(cfg, run[..5], s0) && Overdue(cfg, s0, x, y, TwoRefs(cfg, x, a, b), 2, LastPlace(cfg, x, 1), map[])
    ensures Reaches(cfg, run, s)
    ensures Overdue(cfg, s, x, y, TwoRefs(cfg, x, a, b) - {(cfg.ns, a)}, 1, map[], map[0 := Sweeping([], Some(Loc(1, 3)))])
  {
    var refs := TwoRefs(cfg, x, a, b) - {(cfg.ns, a)};
    s := UpToScan(cfg, x, y, a, b, run, s0);
    ScanOverdue(cfg, s, x, y, refs);
    s := Take(cfg, run, 7, s);
    ReapOverdue(cfg, s, x, y, refs);
    s := Take(cfg, run, 8, s);
    assert run[..9] == run;
  }

  /** A key whose blob is in the index is in the map. */
  lemma NamedIsMapped(cfg: Config, run: seq<Action>, key: Key, x: Bytes)
    requires cfg.capacity >= 1 && Runs(cfg, run)
    requires var refs := After(cfg, run).idx.refs; (cfg.ns, key) in refs && refs[(cfg.ns, key)].blobId == Sha256(x)
    ensures key in MapRun(run) && MapRun(run)[key] == x
  {
    RunRefines(cfg, run);
  }

  /** The chunk's last place reads as the chunk. */
  lemma OverdueReads(cfg: Config, s: Store, x: Bytes, y: Bytes, refs: RefTable, key: Key)
    requires OnePiece(cfg, x) && Overdue(cfg, s, x, y, refs, 2, LastPlace(cfg, x, 1), map[])
    requires (cfg.ns, key) in refs && refs[(cfg.ns, key)].blobId == Sha256(x)
    ensures Get(cfg, s, key) == Ok(x)
  {
    assert ReadPages(s.disk.pages, Loc(1, 4), 0) == Ok([]);
    assert ReadPages(s.disk.pages, Loc(1, 3), 1) == Ok(x + []);
    assert x + [] == x;
    var none: seq<ChunkId> := [];
    assert [Sha256(x)][1..] == none;
    assert ReadAll(cfg, s, none) == Ok([]);
  }

  lemma SweptInRun(cfg: Config, x: Bytes, y: Bytes, a: Key, b: Key, run: seq<Action>)
    requires ValidConfig(cfg) && Doubles(cfg, x, y) && a != b && a != "" && b != "" && |run| == 9
    requires run[0] == Put(0, a, x, []) && run[1] == MarkDup(0) && run[2] == Put(0, b, x, [])
    requires run[3] == RejectedPut(y, []) && run[4] == Crash
    requires run[5] == Delete(a) && run[6] == BeginSweep(0) && run[7] == Scan(0, Loc(1, 3)) && run[8] == ReapTx(0)
    ensures Runs(cfg, run[..5])
    ensures Get(cfg, After(cfg, run[..5]), a) == Get(cfg, After(cfg, run[..5]), b) == Ok(x)
    ensures Runs(cfg, run) && b in MapRun(run) && MapRun(run)[b] == x && Get(cfg, After(cfg, run), b) == Err(NoRecord)
  {
    var s0 := UpToCrash(cfg, x, y, a, b, run);
    OverdueReads(cfg, s0, x, y, TwoRefs(cfg, x, a, b), a);
    OverdueReads(cfg, s0, x, y, TwoRefs(cfg, x, a, b), b);
    var s := UpToSweep(cfg, x, y, a, b, run, s0);
    NamedIsMapped(cfg, run, b, x);
  }

  /**
   Right after the reopen both keys read. Then one of them is deleted, a sweep
   reaches the chunk's page and takes its record, and the other key is lost.
   */
  lemma LiveChunkIsSwept(cfg: Config, x: Bytes, y: Bytes, a: Key, b: Key)
    requires ValidConfig(cfg) && SinglePage(cfg) && Doubles(cfg, x, y) && a != b && a != "" && b != ""
    ensures var run := SharedBlobRun(x, y, a, b);
            && |run| == 9 && Runs(cfg, run[..5])
            && Get(cfg, After(cfg, run[..5]), a) == Get(cfg, After(cfg, run[..5]), b) == Ok(x)
            && Runs(cfg, run) && b in MapRun(run) && MapRun(run)[b] == x
            && Get(cfg, After(cfg, run), b) == Err(NoRecord)
  {
    var run := SharedBlobRun(x, y, a, b);
    SweptInRun(cfg, x, y, a, b, run);
  }

  lemma DoublesExist(ns: NsId, crc: Bytes -> nat)
    ensures var cfg := Config(ns, 1, Bytewise, crc);
            ValidConfig(cfg) && SinglePage(cfg) && Doubles(cfg, [7], [7, 7])
  {
    WitnessesExist(ns, crc);
    var b: Bytes := [7, 7];
    assert b[1..] == [7] && b[..1] == [7];
    assert Slices(b, 1) == [[7]] + Slices([7], 1) == [[7], [7]];
  }
}
