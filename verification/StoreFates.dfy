/**
 What becomes of every chunk over every run, reopens included: how far its count
 falls short of the claims on it, which sweep takes its record, and whether its
 record points at pages that are there. Together they decide exactly which keys
 can be read. Nothing here sets any chunk aside.
 */
module Shortfalls {
  import opened Base
  import opened Records
  import opened Disk
  import opened IndexSpec
  import opened DoubleEntry
  import opened ReplaySpec
  import opened Replay
  import opened StoreMachine
  import opened StoreInvariant
  import opened StoreSteps
  import opened ReopenSpec
  import opened StoreRuns
  import opened StoreLimits

  // ---- how one step moves the gap of any chunk

  /** The claims on a chunk that a step releases before it adds any. */
  function Releases(cfg: Config, s: Store, a: Action, c: ChunkId): nat {
    match a
    case Delete(key) => DeleteTakes(s.idx, (cfg.ns, key), c)
    case Put(_, key, content, _) =>
      var k := (cfg.ns, key);
      if k in s.idx.refs && s.idx.refs[k].blobId != Sha256(content) then DeleteTakes(s.idx, k, c) else 0
    case _ => 0
  }

  /** Taking `m` off a count and off the claims: below zero the count stops and the claims go on. */
  lemma ReleaseGap(s: IndexState, blobs: BlobTable, id: BlobId, c: ChunkId)
    requires NonNegative(s) && id in blobs
    ensures var rel, m := ReleaseBlob(blobs, s.chunks, id), Mult(blobs[id].chunkIds, c);
            && CountOf(rel.dec.chunks, c) == Max(0, CountOf(s.chunks, c) - m)
            && Owed(rel.blobs, c) == Owed(blobs, c) - m
  {
    DecChunksCounts(s.chunks, blobs[id].chunkIds);
    ReleaseBlobClaims(blobs, id, c);
  }

  lemma DeleteGap(cfg: Config, s: Store, key: Key, c: ChunkId)
    requires cfg.capacity >= 1 && NonNegative(s.idx) && Backed(s.idx)
    ensures Gap(Step(cfg, s, Delete(key)).idx, c)
         == Max(Gap(s.idx, c), Releases(cfg, s, Delete(key), c) - Owed(s.idx.blobs, c))
  {
    var k := (cfg.ns, key);
    if k in s.idx.refs {
      RefIsCounted(s.idx, k);
      ReleaseGap(s.idx, s.idx.blobs, s.idx.refs[k].blobId, c);
    } else {
      assert CountOf(s.idx.chunks, c) >= 0;
    }
  }

  /** The part of a put before its own chunks are counted. */
  lemma ReplacedGap(idx: IndexState, ref: RefEntry, blob: BlobEntry, c: ChunkId)
    requires NonNegative(idx) && Backed(idx) && ref.blobId == blob.blobId
    ensures var rel, k := ReleaseReplaced(idx, ref, blob), (ref.ns, ref.key);
            var m := if k in idx.refs && idx.refs[k].blobId != ref.blobId then DeleteTakes(idx, k, c) else 0;
            && CountOf(rel.dec.chunks, c) == Max(0, CountOf(idx.chunks, c) - m)
            && Owed(rel.blobs, c) == Owed(idx.blobs, c) + Mult(KeptList(idx.blobs, blob), c) - m
  {
    var k := (ref.ns, ref.key);
    AddBlobClaims(idx.blobs, blob, c);
    assert CountOf(idx.chunks, c) >= 0;
    if k in idx.refs && idx.refs[k].blobId != ref.blobId {
      RefIsCounted(idx, k);
      ReleaseGap(idx, AddBlob(idx.blobs, blob), idx.refs[k].blobId, c);
    }
  }

  lemma CommitGap(cfg: Config, idx: IndexState, key: Key, content: Bytes, entries: seq<ChunkEntry>, c: ChunkId)
    requires NonNegative(idx) && Backed(idx) && ManifestsFixed(cfg, idx.blobs) && AllOwned(cfg.ns, idx.chunks)
    requires EntryIds(entries) == PieceIds(cfg.split(content)) && forall e :: e in entries ==> e.ns == cfg.ns
    ensures var ref, blob := RefFor(cfg, key, content, entries), BlobFor(content, entries);
            var idx', k := CommitPut(idx, ref, blob, entries).0, (cfg.ns, key);
            var m := if k in idx.refs && idx.refs[k].blobId != Sha256(content) then DeleteTakes(idx, k, c) else 0;
            Gap(idx', c) == Max(Gap(idx, c), m - Owed(idx.blobs, c))
  {
    var ref, blob := RefFor(cfg, key, content, entries), BlobFor(content, entries);
    var before := ReleaseReplaced(idx, ref, blob).dec.chunks;
    ReplacedGap(idx, ref, blob, c);
    ReplacedSame(idx, ref, blob);
    assert c in before ==> before[c].(refCount := 0) == idx.chunks[c].(refCount := 0);
    UpsertCounts(cfg.ns, before, entries, c);
  }

  lemma ReplacedSame(idx: IndexState, ref: RefEntry, blob: BlobEntry)
    requires NonNegative(idx)
    ensures SameRecords(idx.chunks, ReleaseReplaced(idx, ref, blob).dec.chunks)
  {
    var blobs, k := AddBlob(idx.blobs, blob), (ref.ns, ref.key);
    if k in idx.refs && idx.refs[k].blobId in blobs {
      DecChunksCounts(idx.chunks, blobs[idx.refs[k].blobId].chunkIds);
    }
  }

  /** What the steps below rely on, none of it about single chunks. */
  ghost predicate TablesOk(cfg: Config, s: Store) {
    && NonNegative(s.idx) && Backed(s.idx)
    && ManifestsFixed(cfg, s.idx.blobs) && AllOwned(cfg.ns, s.idx.chunks) && ValidDisk(s.disk)
  }

  lemma ReachableTables(cfg: Config, actions: seq<Action>)
    requires ValidConfig(cfg) && SinglePage(cfg) && Runs(cfg, actions)
    ensures TablesOk(cfg, After(cfg, actions))
  {
    ReachableInv(cfg, actions);
  }

  lemma PutStepGap(cfg: Config, s: Store, p: nat, key: Key, content: Bytes, rolls: seq<bool>, c: ChunkId)
    requires cfg.capacity >= 1 && TablesOk(cfg, s)
    ensures Gap(PutStep(cfg, s, p, key, content, rolls).idx, c)
         == Max(Gap(s.idx, c), Releases(cfg, s, Put(p, key, content, rolls), c) - Owed(s.idx.blobs, c))
  {
    var w := WritePieces(cfg, s.disk, cfg.split(content), rolls);
    WritePiecesHolds(cfg, s.disk, cfg.split(content), rolls);
    EntryIdsArePieceIds(cfg, s.disk, w.0, cfg.split(content), w.1);
    CommitGap(cfg, s.idx, key, content, w.1, c);
  }

  lemma PurgeGap(idx: IndexState, id: BlobId, c: ChunkId)
    requires NonNegative(idx)
    ensures Gap(PurgeBlob(idx, id), c) == Gap(idx, c)
  {
    if PurgeBlob(idx, id) != idx {
      MapSumDrop(idx.blobs, id, Claim(c));
      assert 0 * Mult(idx.blobs[id].chunkIds, c) == 0;
    }
  }

  lemma OthersGap(cfg: Config, s: Store, a: Action, c: ChunkId)
    requires cfg.capacity >= 1 && NonNegative(s.idx) && Enabled(s, a)
    requires !a.Put? && !a.Delete? && !a.Purge? && !a.Relocate? && !a.Crash?
    ensures Gap(Step(cfg, s, a).idx, c) == Gap(s.idx, c)
  {
  }

  /**
   Every step keeps the gap of every chunk, except that releasing more claims than
   are counted raises it to the claims left over, and a relocation restores what was
   taken meanwhile.
   */
  lemma StepMovesGap(cfg: Config, s: Store, a: Action, c: ChunkId)
    requires cfg.capacity >= 1 && TablesOk(cfg, s) && Enabled(s, a) && !a.Crash?
    ensures Gap(Step(cfg, s, a).idx, c)
         == Max(Gap(s.idx, c), Releases(cfg, s, a, c) - Owed(s.idx.blobs, c)) + Lost(s, a, c)
  {
    assert CountOf(s.idx.chunks, c) >= 0;
    match a
    case Put(p, key, content, rolls) => PutStepGap(cfg, s, p, key, content, rolls, c);
    case Delete(key) => DeleteGap(cfg, s, key, c);
    case Purge(id) => PurgeGap(s.idx, id, c);
    case Relocate(p) => RelocateGap(s, p);
    case _ => OthersGap(cfg, s, a, c);
  }

  // ---- over whole runs

  /**
   How far the count of a chunk falls short of the claims on it, read off the run.
   Replay counts a chunk once, whatever its log entries and the manifests claim; from
   then on the shortfall is capped by the claims that releases leave over, and a
   relocation takes off what it restores.
   */
  ghost function Shortfall(cfg: Config, actions: seq<Action>, c: ChunkId): int
    requires cfg.capacity >= 1 && Runs(cfg, actions)
    decreases |actions|
  {
    if actions == [] then
      0
    else
      var init, last := actions[..|actions| - 1], actions[|actions| - 1];
      var s := After(cfg, init);
      if last.Crash? then
        if c in NewIds(s.idx, Log(s)) then Owed(s.idx.blobs, c) + Mult(NewIds(s.idx, Log(s)), c) - 1
        else Shortfall(cfg, init, c)
      else
        Min(Shortfall(cfg, init, c), Owed(s.idx.blobs, c) - Releases(cfg, s, last, c)) - Lost(s, last, c)
  }

  /** Double entry for every chunk and every run: the count is the claims less the shortfall. */
  lemma {:induction false} CountIsClaimsLessShortfall(cfg: Config, actions: seq<Action>, c: ChunkId)
    requires ValidConfig(cfg) && SinglePage(cfg) && Runs(cfg, actions)
    ensures var idx := After(cfg, actions).idx;
            CountOf(idx.chunks, c) == Owed(idx.blobs, c) - Shortfall(cfg, actions, c) >= 0
    decreases |actions|
  {
    ReachableTables(cfg, actions);
    assert CountOf(After(cfg, actions).idx.chunks, c) >= 0;
    if actions != [] {
      var init, last := actions[..|actions| - 1], actions[|actions| - 1];
      var s := After(cfg, init);
      CountIsClaimsLessShortfall(cfg, init, c);
      if last.Crash? {
        ReplayGap(s.idx, Log(s), c);
      } else {
        ReachableTables(cfg, init);
        StepMovesGap(cfg, s, last, c);
      }
    }
  }

  /** In an open store a shortfall never grows. */
  lemma {:induction false} ShortfallNeverGrows(cfg: Config, actions: seq<Action>, n: nat, c: ChunkId)
    requires ValidConfig(cfg) && SinglePage(cfg) && Runs(cfg, actions) && n <= |actions| && NoCrash(actions, n)
    requires Runs(cfg, actions[..n])
    ensures Shortfall(cfg, actions, c) <= Shortfall(cfg, actions[..n], c)
    decreases |actions|
  {
    if n == |actions| {
      assert actions[..n] == actions;
    } else {
      var init, last := actions[..|actions| - 1], actions[|actions| - 1];
      assert init[..n] == actions[..n];
      ShortfallNeverGrows(cfg, init, n, c);
      LostIsNoGain(cfg, init, last, c);
    }
  }

  lemma LostIsNoGain(cfg: Config, init: seq<Action>, a: Action, c: ChunkId)
    requires ValidConfig(cfg) && SinglePage(cfg) && Runs(cfg, init) && Enabled(After(cfg, init), a)
    ensures Lost(After(cfg, init), a, c) >= 0
  {
    ReachableInv(cfg, init);
    if a.Relocate? {
      assert ProcOk(cfg, After(cfg, init), a.p, Tainted(cfg, init));
    }
  }

  // ---- which sweep takes a record

  /** A reap transaction at the page that the chunk's record names. */
  predicate AtOwnPage(s: Store, a: Action, c: ChunkId)
    requires Enabled(s, a)
  {
    a.ReapTx? && s.procs[a.p].queue[0] == (c, if c in s.idx.chunks then s.idx.chunks[c].loc else Loc(0, 0))
  }

  /** And at a moment when the claims do not exceed the shortfall. */
  ghost predicate TakenBy(cfg: Config, init: seq<Action>, a: Action, c: ChunkId)
    requires cfg.capacity >= 1 && Runs(cfg, init) && Enabled(After(cfg, init), a)
  {
    AtOwnPage(After(cfg, init), a, c) && Owed(After(cfg, init).idx.blobs, c) <= Shortfall(cfg, init, c)
  }

  lemma ReapTakesIff(chunks: ChunkTable, id: ChunkId, loc: Loc, c: ChunkId)
    requires c in chunks
    ensures c in ReapPage(chunks, id, loc).chunks <==> !(id == c && loc == chunks[c].loc && chunks[c].refCount <= 0)
  {
  }

  /** A sweep removes the record of a chunk exactly then. */
  lemma SweepTakesIff(cfg: Config, init: seq<Action>, a: Action, c: ChunkId)
    requires ValidConfig(cfg) && SinglePage(cfg) && Runs(cfg, init) && Enabled(After(cfg, init), a) && a.ReapTx?
    requires c in After(cfg, init).idx.chunks
    ensures c !in Step(cfg, After(cfg, init), a).idx.chunks <==> TakenBy(cfg, init, a, c)
  {
    var s := After(cfg, init);
    var q := s.procs[a.p].queue[0];
    CountIsClaimsLessShortfall(cfg, init, c);
    ReapTakesIff(s.idx.chunks, q.0, q.1, c);
  }

  /** Read off the run: the chunk has been put or replayed, and no sweep has taken its record since. */
  ghost predicate Recorded(cfg: Config, actions: seq<Action>, c: ChunkId)
    requires cfg.capacity >= 1 && Runs(cfg, actions)
    decreases |actions|
  {
    actions != [] &&
    var init, last := actions[..|actions| - 1], actions[|actions| - 1];
    var s := After(cfg, init);
    match last
    case Put(_, _, content, _) => c in PieceIds(cfg.split(content)) || Recorded(cfg, init, c)
    case Relocate(p) => s.procs[p].todo[0].chunkId == c || Recorded(cfg, init, c)
    case ReapTx(_) => Recorded(cfg, init, c) && !TakenBy(cfg, init, last, c)
    case Crash => c in NewIds(s.idx, Log(s)) || Recorded(cfg, init, c)
    case _ => Recorded(cfg, init, c)
  }

  lemma PutRecords(cfg: Config, s: Store, p: nat, key: Key, content: Bytes, rolls: seq<bool>, c: ChunkId)
    requires cfg.capacity >= 1 && NonNegative(s.idx) && ValidDisk(s.disk)
    ensures c in PutStep(cfg, s, p, key, content, rolls).idx.chunks
       <==> c in s.idx.chunks || c in PieceIds(cfg.split(content))
  {
    var w := WritePieces(cfg, s.disk, cfg.split(content), rolls);
    WritePiecesHolds(cfg, s.disk, cfg.split(content), rolls);
    EntryIdsArePieceIds(cfg, s.disk, w.0, cfg.split(content), w.1);
    var ref, blob := RefFor(cfg, key, content, w.1), BlobFor(content, w.1);
    ReplacedSame(s.idx, ref, blob);
    UpsertCounts(cfg.ns, ReleaseReplaced(s.idx, ref, blob).dec.chunks, w.1, c);
  }

  lemma DeleteRecords(cfg: Config, s: Store, key: Key)
    requires cfg.capacity >= 1 && NonNegative(s.idx)
    ensures SameRecords(s.idx.chunks, Step(cfg, s, Delete(key)).idx.chunks)
  {
    var k := (cfg.ns, key);
    if k in s.idx.refs && s.idx.refs[k].blobId in s.idx.blobs {
      DecChunksCounts(s.idx.chunks, s.idx.blobs[s.idx.refs[k].blobId].chunkIds);
    }
  }

  lemma OthersRecords(cfg: Config, s: Store, a: Action)
    requires cfg.capacity >= 1 && Enabled(s, a)
    requires !a.Put? && !a.Delete? && !a.ReapTx? && !a.Relocate? && !a.Crash?
    ensures Step(cfg, s, a).idx.chunks == s.idx.chunks
  {
  }

  /** After every run the chunks that have a record are exactly these. */
  lemma {:induction false} RecordedIff(cfg: Config, actions: seq<Action>, c: ChunkId)
    requires ValidConfig(cfg) && SinglePage(cfg) && Runs(cfg, actions)
    ensures c in After(cfg, actions).idx.chunks <==> Recorded(cfg, actions, c)
    decreases |actions|
  {
    if actions != [] {
      var init, last := actions[..|actions| - 1], actions[|actions| - 1];
      var s := After(cfg, init);
      RecordedIff(cfg, init, c);
      ReachableTables(cfg, init);
      match last
      case Put(p, key, content, rolls) => PutRecords(cfg, s, p, key, content, rolls, c);
      case Delete(key) => DeleteRecords(cfg, s, key);
      case ReapTx(p) =>
        if c in s.idx.chunks {
          SweepTakesIff(cfg, init, last, c);
        }
      case Relocate(p) =>
      case Crash => ReplayedRecord(s.idx, Log(s), c);
      case _ => OthersRecords(cfg, s, last);
    }
  }

  /** From action `n` on, at every sweep of its page, more than `m` claims are on the chunk. */
  ghost predicate ClaimedAbove(cfg: Config, actions: seq<Action>, n: nat, c: ChunkId, m: int)
    requires cfg.capacity >= 1 && Runs(cfg, actions)
    decreases |actions|
  {
    |actions| <= n ||
    var init, last := actions[..|actions| - 1], actions[|actions| - 1];
    && ClaimedAbove(cfg, init, n, c, m)
    && (AtOwnPage(After(cfg, init), last, c) ==> Owed(After(cfg, init).idx.blobs, c) > m)
  }

  /**
   While the claims on a chunk stay above the shortfall that the last reopen has
   left, the chunk keeps its record.
   */
  lemma {:induction false} KeptWhileClaimed(cfg: Config, actions: seq<Action>, n: nat, c: ChunkId)
    requires ValidConfig(cfg) && SinglePage(cfg) && Runs(cfg, actions) && n <= |actions| && NoCrash(actions, n)
    requires Runs(cfg, actions[..n]) && c in After(cfg, actions[..n]).idx.chunks
    requires ClaimedAbove(cfg, actions, n, c, Shortfall(cfg, actions[..n], c))
    ensures c in After(cfg, actions).idx.chunks
    decreases |actions|
  {
    if n == |actions| {
      assert actions[..n] == actions;
    } else {
      var init, last := actions[..|actions| - 1], actions[|actions| - 1];
      assert init[..n] == actions[..n];
      KeptWhileClaimed(cfg, init, n, c);
      ShortfallNeverGrows(cfg, init, n, c);
      RecordedIff(cfg, init, c);
      RecordedIff(cfg, actions, c);
    }
  }
}

/** Which records point at pages that are gone, and so which keys can be read, after every run. */
module StoreFates {
  import opened Base
  import opened Records
  import opened Disk
  import opened IndexSpec
  import opened DoubleEntry
  import opened ReplaySpec
  import opened Replay
  import opened StoreMachine
  import opened StoreInvariant
  import opened StoreSteps
  import opened ReopenSpec
  import opened Reopening
  import opened StoreRuns
  import opened StoreRefinement
  import opened Recovery
  import opened Shortfalls

  // ---- records that have gone astray

  /** The step writes the chunk's record anew, at a page just copied. */
  predicate Moves(s: Store, a: Action, c: ChunkId)
    requires Enabled(s, a)
  {
    a.Relocate? && s.procs[a.p].todo[0].chunkId == c
  }

  /**
   The chunks whose record a reopen has pointed at pages that are flagged or gone,
   until a sweep takes the record, a relocation writes it anew, or another reopen
   points it elsewhere.
   */
  ghost function Astray(cfg: Config, actions: seq<Action>): set<ChunkId>
    requires cfg.capacity >= 1 && Runs(cfg, actions)
    decreases |actions|
  {
    if actions == [] then
      {}
    else
      var init, last := actions[..|actions| - 1], actions[|actions| - 1];
      var s, before := After(cfg, init), Astray(cfg, init);
      if last.Crash? then Elsewhere(s, before) + Disordered(s).places else Left(cfg, init, last, before)
  }

  ghost function Left(cfg: Config, init: seq<Action>, a: Action, before: set<ChunkId>): set<ChunkId>
    requires cfg.capacity >= 1 && Runs(cfg, init) && Enabled(After(cfg, init), a)
  {
    set c | c in before && !Moves(After(cfg, init), a, c) && !TakenBy(cfg, init, a, c)
  }

  ghost function Disorders(cfg: Config, actions: seq<Action>): Disorder
    requires cfg.capacity >= 1 && Runs(cfg, actions)
  {
    Disorder(Tainted(cfg, actions).counts, Astray(cfg, actions))
  }

  /** A chunk without a record need not be set aside. */
  lemma AbsentIsInOrder(cfg: Config, s: Store, bad: Disorder, places: set<ChunkId>)
    requires cfg.capacity >= 1 && Inv(cfg, s, bad) && places <= bad.places
    requires forall c :: c in bad.places && c !in places ==> c !in s.idx.chunks
    ensures Inv(cfg, s, Disorder(bad.counts, places))
  {
    var bad' := Disorder(bad.counts, places);
    forall l
      ensures ClearBut(s.idx.chunks, l, bad) == ClearBut(s.idx.chunks, l, bad')
    {
    }
    forall p | p in s.procs
      ensures ProcOk(cfg, s, p, bad')
    {
      assert ProcOk(cfg, s, p, bad);
    }
  }

  /** Nor one that a relocation has just written: the copy holds it. */
  lemma MovedIsInOrder(cfg: Config, s: Store, p: nat, bad: Disorder)
    requires cfg.capacity >= 1 && Inv(cfg, s, bad) && Enabled(s, Relocate(p))
    ensures Inv(cfg, RelocateStep(s, p), Disorder(bad.counts, bad.places - {s.procs[p].todo[0].chunkId}))
  {
    var s', e := RelocateStep(s, p), s.procs[p].todo[0];
    var bad' := Disorder(bad.counts, bad.places - {e.chunkId});
    RelocateKeeps(cfg, s, p, bad);
    assert ProcOk(cfg, s, p, bad) && ProcOk(cfg, s', p, bad);
    assert Holds(cfg, s.disk.pages, e.chunkId, e) && e.ns == cfg.ns;
    assert s'.idx.chunks[e.chunkId] == Carried(e, s.procs[p].got.value);
    assert Holds(cfg, s'.disk.pages, e.chunkId, s'.idx.chunks[e.chunkId]);
    LoneRelocation(cfg, s', p, bad');
  }

  /** The invariant, with only those chunks set aside whose record is astray at the moment. */
  lemma {:induction false} ReachableDisorders(cfg: Config, actions: seq<Action>)
    requires ValidConfig(cfg) && SinglePage(cfg) && Runs(cfg, actions)
    ensures Inv(cfg, After(cfg, actions), Disorders(cfg, actions))
    decreases |actions|
  {
    if actions == [] {
      assert forall c :: Gap(EMPTY_INDEX, c) == 0;
    } else {
      var init, last := actions[..|actions| - 1], actions[|actions| - 1];
      ReachableDisorders(cfg, init);
      if last.Crash? {
        CrashKeeps(cfg, After(cfg, init), Disorders(cfg, init));
      } else {
        StepSettles(cfg, init, last, Disorders(cfg, init));
      }
    }
  }

  lemma StepSettles(cfg: Config, init: seq<Action>, a: Action, bad: Disorder)
    requires ValidConfig(cfg) && SinglePage(cfg) && Runs(cfg, init) && Enabled(After(cfg, init), a) && !a.Crash?
    requires Inv(cfg, After(cfg, init), bad)
    ensures Inv(cfg, Step(cfg, After(cfg, init), a), Disorder(bad.counts, Left(cfg, init, a, bad.places)))
  {
    var s := After(cfg, init);
    if a.Relocate? {
      MovedIsInOrder(cfg, s, a.p, bad);
      assert Left(cfg, init, a, bad.places) == bad.places - {s.procs[a.p].todo[0].chunkId};
    } else {
      OthersSettle(cfg, init, a, s, bad);
    }
  }

  lemma OthersSettle(cfg: Config, init: seq<Action>, a: Action, s: Store, bad: Disorder)
    requires ValidConfig(cfg) && SinglePage(cfg) && Runs(cfg, init) && s == After(cfg, init) && Enabled(s, a)
    requires !a.Crash? && !a.Relocate? && Inv(cfg, s, bad)
    ensures Inv(cfg, Step(cfg, s, a), Disorder(bad.counts, Left(cfg, init, a, bad.places)))
  {
    StepKeeps(cfg, s, a, bad);
    forall c | c in bad.places && c !in Left(cfg, init, a, bad.places)
      ensures c !in Step(cfg, s, a).idx.chunks
    {
      SweptIsGone(cfg, init, a, c);
    }
    AbsentIsInOrder(cfg, Step(cfg, s, a), bad, Left(cfg, init, a, bad.places));
  }

  lemma SweptIsGone(cfg: Config, init: seq<Action>, a: Action, c: ChunkId)
    requires ValidConfig(cfg) && SinglePage(cfg) && Runs(cfg, init) && Enabled(After(cfg, init), a)
    requires TakenBy(cfg, init, a, c)
    ensures c !in Step(cfg, After(cfg, init), a).idx.chunks
  {
    if c in After(cfg, init).idx.chunks {
      SweepTakesIff(cfg, init, a, c);
    }
  }

  // ---- such a record stays unreadable

  /** One of the pages the record names has been flagged, or dropped with its segment. */
  predicate Lost(d: Disk, e: ChunkEntry) {
    exists l :: l in Span(e.loc, e.pageCount) && Used(d, l) && !Live(d.pages, l)
  }

  lemma LostStays(d: Disk, d': Disk, e: ChunkEntry, e': ChunkEntry)
    requires Lost(d, e) && PagesStay(d, d') && SameSpan(e, e')
    ensures Lost(d', e')
  {
    var l :| l in Span(e.loc, e.pageCount) && Used(d, l) && !Live(d.pages, l);
    assert l in Span(e'.loc, e'.pageCount) && Used(d', l) && !Live(d'.pages, l);
  }

  lemma LostIsUnreadable(cfg: Config, d: Disk, e: ChunkEntry)
    requires cfg.capacity >= 1 && Lost(d, e)
    ensures Unreadable(ReadChunk(cfg, d.pages, e))
  {
    var l :| l in Span(e.loc, e.pageCount) && Used(d, l) && !Live(d.pages, l);
    ReadPagesFail(d.pages, e.loc, e.pageCount, l);
  }

  lemma PutKeepsSpan(cfg: Config, s: Store, a: Action, c: ChunkId)
    requires cfg.capacity >= 1 && NonNegative(s.idx) && Enabled(s, a) && a.Put? && Owned(cfg.ns, s.idx.chunks, c)
    ensures c in Step(cfg, s, a).idx.chunks && SameSpan(s.idx.chunks[c], Step(cfg, s, a).idx.chunks[c])
  {
    PutKeepsRecord(cfg, s, a.p, a.key, a.content, a.rolls, c);
  }

  lemma DeleteKeepsSpan(cfg: Config, s: Store, key: Key, c: ChunkId)
    requires cfg.capacity >= 1 && NonNegative(s.idx) && c in s.idx.chunks
    ensures var chunks := Step(cfg, s, Delete(key)).idx.chunks; c in chunks && SameSpan(s.idx.chunks[c], chunks[c])
  {
    DeleteRecords(cfg, s, key);
    var chunks := Step(cfg, s, Delete(key)).idx.chunks;
    assert s.idx.chunks[c].(refCount := 0) == chunks[c].(refCount := 0);
  }

  lemma ReapKeepsSpan(s: Store, p: nat, c: ChunkId)
    requires Enabled(s, ReapTx(p)) && c in s.idx.chunks && c in ReapStep(s, p).idx.chunks
    ensures SameSpan(s.idx.chunks[c], ReapStep(s, p).idx.chunks[c])
  {
  }

  lemma RelocateKeepsSpan(s: Store, p: nat, c: ChunkId)
    requires Enabled(s, Relocate(p)) && c in s.idx.chunks && s.procs[p].todo[0].chunkId != c
    ensures SameSpan(s.idx.chunks[c], RelocateStep(s, p).idx.chunks[c])
  {
  }

  /** No step but a relocation of it, and replay, moves a record. */
  lemma StepKeepsSpan(cfg: Config, s: Store, a: Action, c: ChunkId)
    requires cfg.capacity >= 1 && NonNegative(s.idx) && Enabled(s, a) && !a.Crash? && !Moves(s, a, c)
    requires Owned(cfg.ns, s.idx.chunks, c) && c in Step(cfg, s, a).idx.chunks
    ensures SameSpan(s.idx.chunks[c], Step(cfg, s, a).idx.chunks[c])
  {
    match a
    case Put(p, key, content, rolls) => PutKeepsSpan(cfg, s, a, c);
    case Delete(key) => DeleteKeepsSpan(cfg, s, key, c);
    case ReapTx(p) => ReapKeepsSpan(s, p, c);
    case Relocate(p) => RelocateKeepsSpan(s, p, c);
    case _ => OthersRecords(cfg, s, a);
  }

  lemma StepPages(cfg: Config, actions: seq<Action>)
    requires ValidConfig(cfg) && SinglePage(cfg) && Runs(cfg, actions) && actions != []
    ensures PagesStay(After(cfg, actions[..|actions| - 1]).disk, After(cfg, actions).disk)
  {
    RunPagesStay(cfg, actions, |actions| - 1);
  }

  /** A chunk that replay misplaces has a record at pages that are gone. */
  lemma MisplacedIsLost(cfg: Config, s: Store, c: ChunkId)
    requires cfg.capacity >= 1 && LogOk(cfg, s.disk, s.wal) && ValidDisk(s.disk) && Misplaced(s, c)
    ensures c in CrashStep(s).idx.chunks && Lost(CrashStep(s).disk, CrashStep(s).idx.chunks[c])
  {
    var e := LastOf(NewChunks(s.idx.blobs, Log(s)), c);
    RegisteredRecord(cfg, s, c);
    ReopenKeepsIds(s.disk);
    var l :| l in Span(e.loc, e.pageCount) && !Live(s.disk.pages, l);
    assert Used(CrashStep(s).disk, l) && !Live(CrashStep(s).disk.pages, l);
  }

  /** In every reachable state each of these chunks has a record, at pages that are gone. */
  lemma {:induction false} AstrayIsLost(cfg: Config, actions: seq<Action>, c: ChunkId)
    requires ValidConfig(cfg) && SinglePage(cfg) && Runs(cfg, actions) && c in Astray(cfg, actions)
    ensures var s := After(cfg, actions); c in s.idx.chunks && Lost(s.disk, s.idx.chunks[c])
    decreases |actions|
  {
    var init, last := actions[..|actions| - 1], actions[|actions| - 1];
    var s := After(cfg, init);
    ReachableTables(cfg, init);
    StepPages(cfg, actions);
    if last.Crash? && c in NewIds(s.idx, Log(s)) {
      ReachableInv(cfg, init);
      MisplacedIsLost(cfg, s, c);
    } else {
      AstrayIsLost(cfg, init, c);
      if last.Crash? {
        ReplayedRecord(s.idx, Log(s), c);
      } else {
        RecordedIff(cfg, init, c);
        RecordedIff(cfg, actions, c);
        StepKeepsSpan(cfg, s, last, c);
      }
      LostStays(s.disk, After(cfg, actions).disk, s.idx.chunks[c], After(cfg, actions).idx.chunks[c]);
    }
  }

  /** What a record is good for, in every reachable state: exactly those astray cannot be read. */
  lemma RecordReadsIff(cfg: Config, actions: seq<Action>, c: ChunkId)
    requires ValidConfig(cfg) && SinglePage(cfg) && Runs(cfg, actions) && c in After(cfg, actions).idx.chunks
    ensures var s := After(cfg, actions);
            var r := ReadChunk(cfg, s.disk.pages, s.idx.chunks[c]);
            if c in Astray(cfg, actions) then Unreadable(r)
            else r == Ok(c.content) && Holds(cfg, s.disk.pages, c, s.idx.chunks[c])
  {
    var s := After(cfg, actions);
    if c in Astray(cfg, actions) {
      AstrayIsLost(cfg, actions, c);
      LostIsUnreadable(cfg, s.disk, s.idx.chunks[c]);
    } else {
      ReachableDisorders(cfg, actions);
      HeldChunkReads(cfg, s.disk.pages, c, s.idx.chunks[c]);
    }
  }

  // ---- which keys can be read

  predicate Failed(r: Result<Bytes, GetError>) {
    r == Err(NoRecord) || r == Err(Read(Missing)) || r == Err(Read(Deleted))
  }

  /** The chunk has no record, or one of those that cannot be read, or one that reads as its content. */
  predicate Settled(cfg: Config, s: Store, c: ChunkId, astray: set<ChunkId>) {
    c in s.idx.chunks ==>
      var r := ReadChunk(cfg, s.disk.pages, s.idx.chunks[c]);
      if c in astray then Unreadable(r) else r == Ok(c.content)
  }

  predicate AllThere(s: Store, ids: seq<ChunkId>, astray: set<ChunkId>) {
    forall c :: c in ids ==> c in s.idx.chunks && c !in astray
  }

  lemma {:induction false} ReadAllFates(cfg: Config, s: Store, pieces: seq<Bytes>, astray: set<ChunkId>)
    requires forall c :: c in PieceIds(pieces) ==> Settled(cfg, s, c, astray)
    ensures var r := ReadAll(cfg, s, PieceIds(pieces));
            if AllThere(s, PieceIds(pieces), astray) then r == Ok(Flatten(pieces)) else Failed(r)
    decreases |pieces|
  {
    if pieces != [] {
      var id := PieceIds(pieces)[0];
      assert PieceIds(pieces) == [id] + PieceIds(pieces[1..]);
      assert Settled(cfg, s, id, astray);
      ReadAllFates(cfg, s, pieces[1..], astray);
    }
  }

  /** Read off the run: every chunk of the content has a record that is not astray. */
  ghost predicate Readable(cfg: Config, actions: seq<Action>, content: Bytes)
    requires cfg.capacity >= 1 && Runs(cfg, actions)
  {
    forall c :: c in PieceIds(cfg.split(content)) ==> Recorded(cfg, actions, c) && c !in Astray(cfg, actions)
  }

  /**
   Every interleaving of every operation with crashes and reopens anywhere, and
   every key: Get fails as not found exactly on a key the map does not have, returns
   exactly the bytes of the key's last successful put if each of its chunks has a
   record that is not astray, and otherwise fails.
   */
  lemma StoreReadsIff(cfg: Config, actions: seq<Action>, key: Key)
    requires ValidConfig(cfg) && SinglePage(cfg) && Runs(cfg, actions)
    ensures var m, r := MapRun(actions), Get(cfg, After(cfg, actions), key);
            if key !in m then r == Err(NoSuchKey)
            else if Readable(cfg, actions, m[key]) then r == Ok(m[key])
            else Failed(r)
  {
    RunRefines(cfg, actions);
    var s, m := After(cfg, actions), MapRun(actions);
    if key in m {
      ReachableTables(cfg, actions);
      RefIsCounted(s.idx, (cfg.ns, key));
      var ids := PieceIds(cfg.split(m[key]));
      forall c | c in ids
        ensures Settled(cfg, s, c, Astray(cfg, actions))
        ensures c in s.idx.chunks <==> Recorded(cfg, actions, c)
      {
        RecordedIff(cfg, actions, c);
        if c in s.idx.chunks {
          RecordReadsIff(cfg, actions, c);
        }
      }
      ReadAllFates(cfg, s, cfg.split(m[key]), Astray(cfg, actions));
    }
  }
}
