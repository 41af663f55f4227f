/**
 Get as the code takes it: the ref, the manifest, each chunk record and each
 chunk's pages are looked up one after the other, with other operations in
 between. A reader holds the namespace's shared guard from the start to the end.
 */
module StoreReaders {
  import opened Base
  import opened Records
  import opened Disk
  import opened IndexSpec
  import opened DoubleEntry
  import opened StoreMachine
  import opened StoreInvariant
  import opened ReopenSpec
  import opened StoreRuns
  import opened StoreRefinement
  import opened Recovery

  /** When each lookup happens, as the number of actions the store has taken by then. */
  datatype Reader = Reader(refAt: nat, manifestAt: nat, recordAt: nat -> nat, pageAt: nat -> nat)

  /** The lookups come in this order, and before the end of the run. */
  ghost predicate InOrder(actions: seq<Action>, r: Reader) {
    && r.refAt <= r.manifestAt <= |actions|
    && forall i :: r.manifestAt <= r.recordAt(i) <= r.pageAt(i) <= |actions|
  }

  /** From `n` on the namespace is not taken exclusively and the store stays open. */
  predicate Guarded(cfg: Config, actions: seq<Action>, n: nat)
    requires cfg.capacity >= 1 && Runs(cfg, actions) && n <= |actions|
  {
    && SharedGuard(StateAt(cfg, actions, n))
    && forall k :: n <= k < |actions| ==> !actions[k].BeginExclusive? && !actions[k].Crash?
  }

  /** The chunks from number `i` on, each looked up and read in its own states. */
  ghost function ReadFrom(cfg: Config, actions: seq<Action>, r: Reader, ids: seq<ChunkId>, i: nat): Result<Bytes, GetError>
    requires cfg.capacity >= 1 && Runs(cfg, actions) && InOrder(actions, r) && i <= |ids|
    decreases |ids| - i
  {
    if i == |ids| then
      Ok([])
    else
      var chunks := StateAt(cfg, actions, r.recordAt(i)).idx.chunks;
      if ids[i] !in chunks then
        Err(NoRecord)
      else
        match ReadChunk(cfg, StateAt(cfg, actions, r.pageAt(i)).disk.pages, chunks[ids[i]])
        case Err(e) => Err(Read(e))
        case Ok(data) =>
          var rest := ReadFrom(cfg, actions, r, ids, i + 1);
          if rest.Err? then rest else Ok(data + rest.value)
  }

  /** The ref the reader finds. */
  function FoundRef(cfg: Config, actions: seq<Action>, r: Reader, key: Key): Option<BlobId>
    requires cfg.capacity >= 1 && Runs(cfg, actions) && r.refAt <= |actions|
  {
    var refs := StateAt(cfg, actions, r.refAt).idx.refs;
    if (cfg.ns, key) in refs then Some(refs[(cfg.ns, key)].blobId) else None
  }

  ghost function GetInSteps(cfg: Config, actions: seq<Action>, r: Reader, key: Key): Result<Bytes, GetError>
    requires cfg.capacity >= 1 && Runs(cfg, actions) && InOrder(actions, r)
  {
    match FoundRef(cfg, actions, r, key)
    case None => Err(NoSuchKey)
    case Some(b) =>
      var blobs := StateAt(cfg, actions, r.manifestAt).idx.blobs;
      if b !in blobs then Err(NoManifest) else ReadFrom(cfg, actions, r, blobs[b].chunkIds, 0)
  }

  // ---- what stays while the guard is held

  lemma GuardStays(cfg: Config, s: Store, a: Action)
    requires cfg.capacity >= 1 && Enabled(s, a) && SharedGuard(s) && !a.BeginExclusive?
    ensures SharedGuard(Step(cfg, s, a))
  {
  }

  lemma GuardNext(cfg: Config, actions: seq<Action>, k: nat)
    requires cfg.capacity >= 1 && Runs(cfg, actions) && k < |actions| && !actions[k].BeginExclusive?
    requires SharedGuard(StateAt(cfg, actions, k))
    ensures SharedGuard(StateAt(cfg, actions, k + 1))
  {
    StateAtNext(cfg, actions, k);
    GuardStays(cfg, StateAt(cfg, actions, k), actions[k]);
  }

  lemma {:induction false} GuardedAt(cfg: Config, actions: seq<Action>, n: nat, k: nat)
    requires cfg.capacity >= 1 && Runs(cfg, actions) && n <= k <= |actions| && Guarded(cfg, actions, n)
    ensures SharedGuard(StateAt(cfg, actions, k))
    decreases k
  {
    if n < k {
      GuardedAt(cfg, actions, n, k - 1);
      GuardNext(cfg, actions, k - 1);
    }
  }

  /** The invariant in every state of the stretch, for one set of chunks. */
  lemma InvAt(cfg: Config, actions: seq<Action>, n: nat, k: nat)
    requires ValidConfig(cfg) && SinglePage(cfg) && Runs(cfg, actions) && n <= k <= |actions| && Guarded(cfg, actions, n)
    ensures Inv(cfg, StateAt(cfg, actions, k), Tainted(cfg, actions))
  {
    RunsPrefix(cfg, actions, k);
    ReachableInv(cfg, actions[..k]);
    TaintedSame(cfg, actions, k);
  }

  lemma DeleteKeepsRecord(cfg: Config, s: Store, key: Key, c: ChunkId)
    requires cfg.capacity >= 1 && NonNegative(s.idx) && c in s.idx.chunks
    ensures var chunks := Step(cfg, s, Delete(key)).idx.chunks;
            c in chunks && chunks[c].(refCount := 0) == s.idx.chunks[c].(refCount := 0)
  {
    if (cfg.ns, key) in s.idx.refs && s.idx.refs[(cfg.ns, key)].blobId in s.idx.blobs {
      DecChunksCounts(s.idx.chunks, s.idx.blobs[s.idx.refs[(cfg.ns, key)].blobId].chunkIds);
    }
  }

  lemma OthersKeepChunks(cfg: Config, s: Store, a: Action)
    requires cfg.capacity >= 1 && Enabled(s, a) && SharedGuard(s)
    requires !a.Put? && !a.Delete? && !a.ReapTx? && !a.Crash?
    ensures Step(cfg, s, a).idx.chunks == s.idx.chunks
  {
  }

  lemma ReapKeepsRecord(cfg: Config, s: Store, p: nat, c: ChunkId)
    requires cfg.capacity >= 1 && Enabled(s, ReapTx(p)) && c in s.idx.chunks && s.idx.chunks[c].refCount >= 1
    ensures var chunks := Step(cfg, s, ReapTx(p)).idx.chunks; c in chunks && chunks[c] == s.idx.chunks[c]
  {
  }

  /** No step that the guard lets through moves or removes a record in use. */
  lemma StepKeepsRecord(cfg: Config, s: Store, a: Action, c: ChunkId, bad: Disorder)
    requires ValidConfig(cfg) && Inv(cfg, s, bad) && Enabled(s, a) && SharedGuard(s) && !a.Crash?
    requires c in s.idx.chunks && s.idx.chunks[c].refCount >= 1
    ensures var s' := Step(cfg, s, a);
            c in s'.idx.chunks && s'.idx.chunks[c].(refCount := 0) == s.idx.chunks[c].(refCount := 0)
  {
    match a
    case Put(p, key, content, rolls) => PutKeepsRecord(cfg, s, p, key, content, rolls, c);
    case Delete(key) => DeleteKeepsRecord(cfg, s, key, c);
    case ReapTx(p) => ReapKeepsRecord(cfg, s, p, c);
    case _ => OthersKeepChunks(cfg, s, a);
  }

  /** The key names blob `b` in all states from the reader's first lookup on. */
  ghost predicate Bound(cfg: Config, actions: seq<Action>, n: nat, key: Key, b: BlobId)
    requires cfg.capacity >= 1 && Runs(cfg, actions) && n <= |actions|
  {
    forall k :: n <= k <= |actions| ==> NamesAt(cfg, actions, k, key, b)
  }

  predicate NamesAt(cfg: Config, actions: seq<Action>, k: nat, key: Key, b: BlobId)
    requires cfg.capacity >= 1 && Runs(cfg, actions) && k <= |actions|
  {
    var refs := StateAt(cfg, actions, k).idx.refs; (cfg.ns, key) in refs && refs[(cfg.ns, key)].blobId == b
  }

  /** In each of these states the manifest is there, and every chunk has a counted record that holds. */
  lemma WholeAt(cfg: Config, actions: seq<Action>, n: nat, k: nat, key: Key, b: BlobId)
    requires ValidConfig(cfg) && SinglePage(cfg) && Runs(cfg, actions) && n <= k <= |actions|
    requires Guarded(cfg, actions, n) && NamesAt(cfg, actions, k, key, b) && Spared(cfg, b.content, Tainted(cfg, actions))
    ensures var s := StateAt(cfg, actions, k);
            && b in s.idx.blobs && s.idx.blobs[b].chunkIds == PieceIds(cfg.split(b.content))
            && (forall c :: c in PieceIds(cfg.split(b.content)) ==>
                  c in s.idx.chunks && s.idx.chunks[c].refCount >= 1 && Holds(cfg, s.disk.pages, c, s.idx.chunks[c]))
  {
    InvAt(cfg, actions, n, k);
    ReferencedBlobIsWhole(StateAt(cfg, actions, k).idx, (cfg.ns, key), Tainted(cfg, actions).counts);
  }

  /** So the record a reader has looked up is still the chunk's record when it reads the pages. */
  lemma {:induction false} RecordStays(cfg: Config, actions: seq<Action>, n: nat, j: nat, k: nat, key: Key, b: BlobId,
                                       c: ChunkId)
    requires ValidConfig(cfg) && SinglePage(cfg) && Runs(cfg, actions) && n <= j <= k <= |actions|
    requires Guarded(cfg, actions, n) && Bound(cfg, actions, n, key, b)
    requires Spared(cfg, b.content, Tainted(cfg, actions)) && c in PieceIds(cfg.split(b.content))
    ensures var before, after := StateAt(cfg, actions, j).idx.chunks, StateAt(cfg, actions, k).idx.chunks;
            c in before && c in after && after[c].(refCount := 0) == before[c].(refCount := 0)
    decreases k
  {
    assert NamesAt(cfg, actions, k, key, b);
    WholeAt(cfg, actions, n, k, key, b);
    if j < k {
      RecordStays(cfg, actions, n, j, k - 1, key, b, c);
      assert NamesAt(cfg, actions, k - 1, key, b);
      WholeAt(cfg, actions, n, k - 1, key, b);
      InvAt(cfg, actions, n, k - 1);
      GuardedAt(cfg, actions, n, k - 1);
      StateAtNext(cfg, actions, k - 1);
      StepKeepsRecord(cfg, StateAt(cfg, actions, k - 1), actions[k - 1], c, Tainted(cfg, actions));
    }
  }

  lemma SameRecordHolds(cfg: Config, pages: Pages, c: ChunkId, a: ChunkEntry, b: ChunkEntry)
    requires cfg.capacity >= 1 && Holds(cfg, pages, c, a) && a.(refCount := 0) == b.(refCount := 0)
    ensures Holds(cfg, pages, c, b)
  {
    assert b == a.(refCount := b.refCount);
  }

  /** While the key keeps its blob, the chunk is found and reads as its content. */
  lemma BoundChunkReads(cfg: Config, actions: seq<Action>, n: nat, j: nat, k: nat, key: Key, b: BlobId, c: ChunkId)
    requires ValidConfig(cfg) && SinglePage(cfg) && Runs(cfg, actions) && n <= j <= k <= |actions|
    requires Guarded(cfg, actions, n) && Bound(cfg, actions, n, key, b)
    requires Spared(cfg, b.content, Tainted(cfg, actions)) && c in PieceIds(cfg.split(b.content))
    ensures var chunks := StateAt(cfg, actions, j).idx.chunks;
            c in chunks && ReadChunk(cfg, StateAt(cfg, actions, k).disk.pages, chunks[c]) == Ok(c.content)
  {
    RecordStays(cfg, actions, n, j, k, key, b, c);
    assert NamesAt(cfg, actions, k, key, b);
    WholeAt(cfg, actions, n, k, key, b);
    var pages := StateAt(cfg, actions, k).disk.pages;
    var rec := StateAt(cfg, actions, j).idx.chunks[c];
    SameRecordHolds(cfg, pages, c, StateAt(cfg, actions, k).idx.chunks[c], rec);
    HeldChunkReads(cfg, pages, c, rec);
  }

  lemma PagesStayBetween(cfg: Config, actions: seq<Action>, j: nat, k: nat)
    requires ValidConfig(cfg) && SinglePage(cfg) && Runs(cfg, actions) && j <= k <= |actions|
    ensures PagesStay(StateAt(cfg, actions, j).disk, StateAt(cfg, actions, k).disk)
  {
    RunsPrefix(cfg, actions, k);
    RunsPrefix(cfg, actions, j);
    assert actions[..k][..j] == actions[..j];
    RunPagesStay(cfg, actions[..k], j);
  }

  /** Whatever happens meanwhile, a chunk that has a record either reads as its content or not at all. */
  lemma AnyChunkReads(cfg: Config, actions: seq<Action>, n: nat, j: nat, k: nat, c: ChunkId)
    requires ValidConfig(cfg) && SinglePage(cfg) && Runs(cfg, actions) && n <= j <= k <= |actions|
    requires Guarded(cfg, actions, n) && c !in Tainted(cfg, actions).places && c in StateAt(cfg, actions, j).idx.chunks
    ensures var r := ReadChunk(cfg, StateAt(cfg, actions, k).disk.pages, StateAt(cfg, actions, j).idx.chunks[c]);
            r == Ok(c.content) || Unreadable(r)
  {
    var s, s' := StateAt(cfg, actions, j), StateAt(cfg, actions, k);
    var rec := s.idx.chunks[c];
    InvAt(cfg, actions, n, j);
    HeldSpanUsed(cfg, s.disk, c, rec);
    HeldIsLogged(cfg, s.disk, rec);
    PagesStayBetween(cfg, actions, j, k);
    ChunkStays(cfg, s.disk, s'.disk, rec);
    LoggedChunkReadsIff(cfg, s'.disk, rec);
  }

  // ---- the reader

  lemma {:induction false} ReadFromJoins(cfg: Config, actions: seq<Action>, r: Reader, pieces: seq<Bytes>, i: nat)
    requires cfg.capacity >= 1 && Runs(cfg, actions) && InOrder(actions, r) && i <= |pieces|
    requires forall j :: i <= j < |pieces| ==> ChunkAsPiece(cfg, actions, r, pieces, j)
    ensures var out := ReadFrom(cfg, actions, r, PieceIds(pieces), i);
            && (out.Ok? ==> out == Ok(Flatten(pieces[i..])))
            && ((forall j :: i <= j < |pieces| ==> ChunkThere(cfg, actions, r, pieces, j)) ==> out.Ok?)
    decreases |pieces| - i
  {
    if i < |pieces| {
      ReadFromJoins(cfg, actions, r, pieces, i + 1);
      assert ChunkAsPiece(cfg, actions, r, pieces, i);
      assert pieces[i..] == [pieces[i]] + pieces[i + 1..];
      if forall j :: i <= j < |pieces| ==> ChunkThere(cfg, actions, r, pieces, j) {
        assert ChunkThere(cfg, actions, r, pieces, i);
      }
    }
  }

  /** If the lookups of chunk `j` succeed they yield the piece. */
  ghost predicate ChunkAsPiece(cfg: Config, actions: seq<Action>, r: Reader, pieces: seq<Bytes>, j: nat)
    requires cfg.capacity >= 1 && Runs(cfg, actions) && InOrder(actions, r) && j < |pieces|
  {
    var chunks := StateAt(cfg, actions, r.recordAt(j)).idx.chunks;
    var c := Sha256(pieces[j]);
    c in chunks ==>
      var data := ReadChunk(cfg, StateAt(cfg, actions, r.pageAt(j)).disk.pages, chunks[c]);
      data.Ok? ==> data == Ok(pieces[j])
  }

  /** And they do succeed. */
  ghost predicate ChunkThere(cfg: Config, actions: seq<Action>, r: Reader, pieces: seq<Bytes>, j: nat)
    requires cfg.capacity >= 1 && Runs(cfg, actions) && InOrder(actions, r) && j < |pieces|
  {
    var chunks := StateAt(cfg, actions, r.recordAt(j)).idx.chunks;
    var c := Sha256(pieces[j]);
    c in chunks && ReadChunk(cfg, StateAt(cfg, actions, r.pageAt(j)).disk.pages, chunks[c]).Ok?
  }

  /**
   A reader beside any puts, deletes, renames and phase 1 compactions: if it
   succeeds, it returns the content of the ref it found; if it found a ref, it
   fails only if the key was deleted, replaced or renamed away meanwhile; and it
   reports a missing key exactly if it found none.
   */
  lemma GetInStepsReads(cfg: Config, actions: seq<Action>, r: Reader, key: Key)
    requires ValidConfig(cfg) && SinglePage(cfg) && Runs(cfg, actions) && InOrder(actions, r)
    requires Guarded(cfg, actions, r.refAt)
    requires var b := FoundRef(cfg, actions, r, key); b.Some? ==> Spared(cfg, b.value.content, Tainted(cfg, actions))
    ensures var b, out := FoundRef(cfg, actions, r, key), GetInSteps(cfg, actions, r, key);
            && (b.None? ==> out == Err(NoSuchKey))
            && (b.Some? && out.Ok? ==> out == Ok(b.value.content))
            && (b.Some? && Bound(cfg, actions, r.refAt, key, b.value) ==> out.Ok?)
  {
    var found := FoundRef(cfg, actions, r, key);
    if found.Some? {
      var b := found.value;
      var pieces := cfg.split(b.content);
      InvAt(cfg, actions, r.refAt, r.manifestAt);
      forall j | 0 <= j < |pieces|
        ensures ChunkAsPiece(cfg, actions, r, pieces, j)
      {
        assert PieceIds(pieces)[j] in PieceIds(pieces);
        if Sha256(pieces[j]) in StateAt(cfg, actions, r.recordAt(j)).idx.chunks {
          AnyChunkReads(cfg, actions, r.refAt, r.recordAt(j), r.pageAt(j), Sha256(pieces[j]));
        }
      }
      if Bound(cfg, actions, r.refAt, key, b) {
        assert NamesAt(cfg, actions, r.manifestAt, key, b);
        WholeAt(cfg, actions, r.refAt, r.manifestAt, key, b);
        forall j | 0 <= j < |pieces|
          ensures ChunkThere(cfg, actions, r, pieces, j)
        {
          assert PieceIds(pieces)[j] in PieceIds(pieces);
          BoundChunkReads(cfg, actions, r.refAt, r.recordAt(j), r.pageAt(j), key, b, Sha256(pieces[j]));
        }
      }
      ReadFromJoins(cfg, actions, r, pieces, 0);
      assert pieces[0..] == pieces;
    }
  }
}
