/** The store, read through Get, is a plain map from keys to bytes. */
module StoreRefinement {
  import opened Base
  import opened Records
  import opened Disk
  import opened IndexSpec
  import opened DoubleEntry
  import opened StoreMachine
  import opened StoreInvariant
  import opened StoreRuns
  import Replay
  import StoreSteps

  type Contents = map<Key, Bytes>

  /** What an action means to a user of the store. */
  function MapStep(m: Contents, a: Action): Contents {
    match a
    case Put(_, key, content, _) => m[key := content]
    case Delete(key) => m - {key}
    case Rename(o, n) => if o in m && n !in m then m[n := m[o]] - {o} else m
    case _ => m
  }

  function MapRun(actions: seq<Action>): Contents
    decreases |actions|
  {
    if actions == [] then map[] else MapStep(MapRun(actions[..|actions| - 1]), actions[|actions| - 1])
  }

  /** The refs of the namespace name the contents of the map. */
  ghost predicate Represents(cfg: Config, refs: RefTable, m: Contents) {
    && (forall k :: k in m <==> (cfg.ns, k) in refs)
    && (forall k :: k in m ==> refs[(cfg.ns, k)].blobId == Sha256(m[k]))
  }

  /** Only puts, deletes and renames touch a ref; replay does not. */
  lemma OthersKeepRefs(cfg: Config, s: Store, a: Action)
    requires cfg.capacity >= 1 && Enabled(s, a) && !a.Put? && !a.Delete? && !a.Rename?
    ensures Step(cfg, s, a).idx.refs == s.idx.refs
  {
    if a.Crash? {
      Replay.ReplayManifests(s.idx, Log(s));
    }
  }

  lemma PutRefs(cfg: Config, s: Store, p: nat, key: Key, content: Bytes, rolls: seq<bool>) returns (ref: RefEntry)
    requires cfg.capacity >= 1
    ensures ref.blobId == Sha256(content)
    ensures PutStep(cfg, s, p, key, content, rolls).idx.refs == s.idx.refs[(cfg.ns, key) := ref]
  {
    ref := RefFor(cfg, key, content, WritePieces(cfg, s.disk, cfg.split(content), rolls).1);
  }

  lemma PutRefines(cfg: Config, s: Store, p: nat, key: Key, content: Bytes, rolls: seq<bool>, m: Contents)
    requires cfg.capacity >= 1 && Represents(cfg, s.idx.refs, m)
    ensures Represents(cfg, PutStep(cfg, s, p, key, content, rolls).idx.refs, m[key := content])
  {
    var ref := PutRefs(cfg, s, p, key, content, rolls);
  }

  lemma DeleteRefines(cfg: Config, s: Store, key: Key, m: Contents)
    requires cfg.capacity >= 1 && Represents(cfg, s.idx.refs, m)
    ensures Represents(cfg, Step(cfg, s, Delete(key)).idx.refs, m - {key})
  {
  }

  lemma RenameRefines(cfg: Config, s: Store, o: Key, n: Key, m: Contents)
    requires cfg.capacity >= 1 && Enabled(s, Rename(o, n)) && Represents(cfg, s.idx.refs, m)
    ensures Represents(cfg, Step(cfg, s, Rename(o, n)).idx.refs, MapStep(m, Rename(o, n)))
  {
  }

  lemma StepRefines(cfg: Config, s: Store, a: Action, m: Contents)
    requires cfg.capacity >= 1 && Enabled(s, a) && Represents(cfg, s.idx.refs, m)
    ensures Represents(cfg, Step(cfg, s, a).idx.refs, MapStep(m, a))
  {
    match a
    case Put(p, key, content, rolls) =>
      PutRefines(cfg, s, p, key, content, rolls, m);
    case Delete(key) => DeleteRefines(cfg, s, key, m);
    case Rename(o, n) => RenameRefines(cfg, s, o, n, m);
    case _ => OthersKeepRefs(cfg, s, a);
  }

  lemma {:induction false} RunRefines(cfg: Config, actions: seq<Action>)
    requires cfg.capacity >= 1 && Runs(cfg, actions)
    ensures Represents(cfg, After(cfg, actions).idx.refs, MapRun(actions))
    decreases |actions|
  {
    if actions != [] {
      var init := actions[..|actions| - 1];
      RunRefines(cfg, init);
      StepRefines(cfg, After(cfg, init), actions[|actions| - 1], MapRun(init));
    }
  }

  /** Reading chunks whose records hold gives the pieces, one after the other. */
  lemma {:induction false} ReadAllJoins(cfg: Config, s: Store, pieces: seq<Bytes>)
    requires cfg.capacity >= 1
    requires forall i :: 0 <= i < |pieces| ==>
      var c := Sha256(pieces[i]); c in s.idx.chunks && Holds(cfg, s.disk.pages, c, s.idx.chunks[c])
    ensures ReadAll(cfg, s, PieceIds(pieces)) == Ok(Flatten(pieces))
    decreases |pieces|
  {
    if pieces != [] {
      var id := Sha256(pieces[0]);
      HeldChunkReads(cfg, s.disk.pages, id, s.idx.chunks[id]);
      assert PieceIds(pieces)[1..] == PieceIds(pieces[1..]);
      ReadAllJoins(cfg, s, pieces[1..]);
    }
  }

  /** No chunk of the content is in disorder. */
  predicate Spared(cfg: Config, content: Bytes, bad: Disorder) {
    forall c :: c in PieceIds(cfg.split(content)) ==> c !in bad.counts && c !in bad.places
  }

  /** A key with a ref reads as the content its ref names; nothing on the way can be missing. */
  lemma GetReads(cfg: Config, s: Store, key: Key, bad: Disorder)
    requires ValidConfig(cfg) && CoreBut(cfg, s.idx, s.disk, bad)
    requires (cfg.ns, key) in s.idx.refs ==> Spared(cfg, s.idx.refs[(cfg.ns, key)].blobId.content, bad)
    ensures Get(cfg, s, key) == if (cfg.ns, key) in s.idx.refs then Ok(s.idx.refs[(cfg.ns, key)].blobId.content)
                                else Err(NoSuchKey)
  {
    var k := (cfg.ns, key);
    if k in s.idx.refs {
      ReferencedBlobIsWhole(s.idx, k, bad.counts);
      var id := s.idx.refs[k].blobId;
      var pieces := cfg.split(id.content);
      forall i | 0 <= i < |pieces|
        ensures var c := Sha256(pieces[i]); c in s.idx.chunks && Holds(cfg, s.disk.pages, c, s.idx.chunks[c])
      {
        assert PieceIds(pieces)[i] in s.idx.blobs[id].chunkIds;
      }
      ReadAllJoins(cfg, s, pieces);
    }
  }

  /**
   In every interleaving of puts, refused and aborted puts, deletes, renames, any
   number of phase 1 compactions, phase 2 with deletes and renames in between, and
   crashes anywhere, each followed by replay of the log: Get fails exactly on a key
   the map does not have, and returns exactly the bytes of the key's last
   successful put, unless one of their chunks was left in disorder by a reopen.
   */
  lemma StoreRefinesMap(cfg: Config, actions: seq<Action>, key: Key)
    requires ValidConfig(cfg) && SinglePage(cfg) && Runs(cfg, actions)
    ensures var m, s := MapRun(actions), After(cfg, actions);
            && (Get(cfg, s, key) == Err(NoSuchKey) <==> key !in m)
            && (key in m && Spared(cfg, m[key], Tainted(cfg, actions)) ==> Get(cfg, s, key) == Ok(m[key]))
  {
    ReachableInv(cfg, actions);
    RunRefines(cfg, actions);
    var s, m := After(cfg, actions), MapRun(actions);
    if key !in m || Spared(cfg, m[key], Tainted(cfg, actions)) {
      GetReads(cfg, s, key, Tainted(cfg, actions));
    }
    OnlyMissingKeysAreMissing(cfg, s, key);
  }

  lemma OnlyMissingKeysAreMissing(cfg: Config, s: Store, key: Key)
    ensures Get(cfg, s, key) == Err(NoSuchKey) <==> (cfg.ns, key) !in s.idx.refs
  {
    var k := (cfg.ns, key);
    if k in s.idx.refs && s.idx.refs[k].blobId in s.idx.blobs {
      ReadAllFindsKey(cfg, s, s.idx.blobs[s.idx.refs[k].blobId].chunkIds);
    }
  }

  lemma {:induction false} ReadAllFindsKey(cfg: Config, s: Store, ids: seq<ChunkId>)
    ensures ReadAll(cfg, s, ids) != Err(NoSuchKey)
    decreases |ids|
  {
    if ids != [] {
      ReadAllFindsKey(cfg, s, ids[1..]);
    }
  }

  /** Without such a reopen, and so without any, the store is the map. */
  lemma CleanStoreIsMap(cfg: Config, actions: seq<Action>, key: Key)
    requires ValidConfig(cfg) && SinglePage(cfg) && Runs(cfg, actions) && CleanReopens(cfg, actions)
    ensures Get(cfg, After(cfg, actions), key)
         == if key in MapRun(actions) then Ok(MapRun(actions)[key]) else Err(NoSuchKey)
  {
    CleanMeansUntainted(cfg, actions);
    StoreRefinesMap(cfg, actions, key);
  }

  // ---- records and pages

  /** Every record of every reachable state names an unflagged page holding its chunk, those in disorder aside. */
  lemma ReachableRecordsHold(cfg: Config, actions: seq<Action>, c: ChunkId)
    requires ValidConfig(cfg) && SinglePage(cfg) && Runs(cfg, actions)
    requires c in After(cfg, actions).idx.chunks && c !in Tainted(cfg, actions).places
    ensures var s := After(cfg, actions);
            var l := s.idx.chunks[c].loc;
            l in s.disk.pages && !s.disk.pages[l].deleted && s.disk.pages[l].id == c && s.disk.pages[l].data == c.content
  {
    ReachableInv(cfg, actions);
    var s := After(cfg, actions);
    assert Holds(cfg, s.disk.pages, c, s.idx.chunks[c]);
    var l := s.idx.chunks[c].loc;
    assert l in Span(l, s.idx.chunks[c].pageCount);
  }

  /** A page that has been flagged, or has gone with its segment, is never again named by a record in order. */
  lemma FlaggedForever(cfg: Config, actions: seq<Action>, n: nat, l: Loc)
    requires ValidConfig(cfg) && SinglePage(cfg) && Runs(cfg, actions) && n <= |actions|
    requires Used(StateAt(cfg, actions, n).disk, l) && !Live(StateAt(cfg, actions, n).disk.pages, l)
    ensures var s := After(cfg, actions);
            && !Live(s.disk.pages, l)
            && forall c :: c in s.idx.chunks && c !in Tainted(cfg, actions).places ==> s.idx.chunks[c].loc != l
  {
    RunsPrefix(cfg, actions, n);
    RunPagesStay(cfg, actions, n);
    var s := After(cfg, actions);
    forall c | c in s.idx.chunks && c !in Tainted(cfg, actions).places
      ensures s.idx.chunks[c].loc != l
    {
      ReachableRecordsHold(cfg, actions, c);
    }
  }

  /** A retired page stays retired until the store is opened again. */
  lemma {:induction false} RetiredStaysRetired(cfg: Config, actions: seq<Action>, n: nat, l: Loc)
    requires ValidConfig(cfg) && SinglePage(cfg) && Runs(cfg, actions) && n <= |actions| && NoCrash(actions, n)
    requires Runs(cfg, actions[..n]) && Retired(After(cfg, actions[..n]), l, Tainted(cfg, actions[..n]))
    ensures Retired(After(cfg, actions), l, Tainted(cfg, actions))
    decreases |actions|
  {
    if n == |actions| {
      assert actions[..n] == actions;
    } else {
      var init := actions[..|actions| - 1];
      assert init[..n] == actions[..n];
      RetiredStaysRetired(cfg, init, n, l);
      ReachableInv(cfg, init);
      StoreSteps.StepKeeps(cfg, After(cfg, init), actions[|actions| - 1], Tainted(cfg, init));
    }
  }

  /**
   Once a reap transaction calls a page safe, no later step of any operation makes
   that page the location of a record in order, as long as the store stays open. A
   crash ends the operation; a page it has flagged by then stays out for good
   (FlaggedForever).
   */
  lemma SafeVerdictIsFinal(cfg: Config, actions: seq<Action>, n: nat, p: nat)
    requires ValidConfig(cfg) && SinglePage(cfg) && Runs(cfg, actions) && n <= |actions| && NoCrash(actions, n)
    requires var s := StateAt(cfg, actions, n); p in s.procs && s.procs[p].Sweeping? && s.procs[p].verdict.Some?
    ensures var l := StateAt(cfg, actions, n).procs[p].verdict.value;
            var s := After(cfg, actions);
            forall c :: c in s.idx.chunks && c !in Tainted(cfg, actions).places ==> s.idx.chunks[c].loc != l
  {
    RunsPrefix(cfg, actions, n);
    ReachableInv(cfg, actions[..n]);
    var s := After(cfg, actions[..n]);
    assert ProcOk(cfg, s, p, Tainted(cfg, actions[..n]));
    var l := s.procs[p].verdict.value;
    RetiredStaysRetired(cfg, actions, n, l);
    ReachableInv(cfg, actions);
    var s' := After(cfg, actions);
    forall c | c in s'.idx.chunks && c !in Tainted(cfg, actions).places
      ensures s'.idx.chunks[c].loc != l
    {
      assert Holds(cfg, s'.disk.pages, c, s'.idx.chunks[c]);
      assert s'.idx.chunks[c].loc in Span(s'.idx.chunks[c].loc, s'.idx.chunks[c].pageCount);
    }
  }
}
