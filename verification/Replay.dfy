/**
 Replaying the write-ahead log when a namespace is opened: every logged blob
 without a manifest is registered again, with its chunks, as referenced once.
 What that does to the tables and to the reference counts, for any log.
 */
module Replay {
  import opened Base
  import opened Records
  import opened IndexSpec
  import opened IndexStore
  import opened DoubleEntry
  import opened ReplaySpec

  /** Chunks are logged in order, so an entry's sequence number is its position. */
  predicate Numbered(e: Logged) {
    forall i :: 0 <= i < |e.chunks| ==> e.chunks[i].seqNo == i
  }

  predicate AllNumbered(log: seq<Logged>) {
    forall e :: e in log ==> Numbered(e)
  }

  /** The loop over one logged blob, placing each id at its sequence number. */
  method ReplayBlob(idx: Index, e: Logged)
    requires Numbered(e)
    modifies idx
    ensures idx.State() == ReplayOne(old(idx.State()), e)
  {
    if e.blobId in idx.blobs {
      return;
    }
    var totalSize := 0;
    var ids := seq(|e.chunks|, _ => Sha256([]));
    var i := 0;
    while i < |e.chunks|
      invariant 0 <= i <= |e.chunks|
      invariant |ids| == |e.chunks| && forall j :: 0 <= j < i ==> ids[j] == e.chunks[j].chunkId
      invariant totalSize == TotalLength(e.chunks[..i])
      invariant idx.State() == old(idx.State()).(chunks := PutChunks(old(idx.chunks), e.chunks[..i]))
    {
      var c := e.chunks[i];
      PrefixSnoc(e.chunks, i);
      idx.PutChunk(c.(refCount := 1));
      totalSize := totalSize + c.length;
      ids := ids[c.seqNo := c.chunkId];
      i := i + 1;
    }
    assert e.chunks[..i] == e.chunks;
    assert ids == EntryIds(e.chunks);
    idx.PutBlob(BlobEntry(e.blobId, ids, totalSize, 1));
  }

  /** The entries of one segment's log, in order. */
  method ReplaySegment(idx: Index, log: seq<Logged>)
    requires AllNumbered(log)
    modifies idx
    ensures idx.State() == ReplayAll(old(idx.State()), log)
  {
    var i := 0;
    while i < |log|
      invariant 0 <= i <= |log|
      invariant idx.State() == ReplayAll(old(idx.State()), log[..i])
    {
      PrefixSnoc(log, i);
      ReplayBlob(idx, log[i]);
      i := i + 1;
    }
    assert log[..i] == log;
  }

  /** replayWAL: the segments in order of their ids, each with its log. */
  method ReplayWAL(idx: Index, segments: set<nat>, wal: Wals, n: nat)
    requires AllNumbered(WholeLog(segments, wal, n))
    modifies idx
    ensures idx.State() == ReplayAll(old(idx.State()), WholeLog(segments, wal, n))
  {
    var seg := 0;
    while seg < n
      invariant seg <= n
      invariant idx.State() == ReplayAll(old(idx.State()), WholeLog(segments, wal, seg))
    {
      WholeLogPrefix(segments, wal, seg + 1, n);
      var log := if seg in segments then SegmentLog(wal, seg) else [];
      var before := WholeLog(segments, wal, seg);
      assert WholeLog(segments, wal, seg + 1) == before + log;
      assert AllNumbered(log) by {
        assert forall e :: e in log ==> e in before + log;
      }
      ReplayAppend(old(idx.State()), before, log);
      ReplaySegment(idx, log);
      seg := seg + 1;
    }
  }

  lemma {:induction false} WholeLogPrefix(segments: set<nat>, wal: Wals, m: nat, n: nat)
    requires m <= n
    ensures WholeLog(segments, wal, m) <= WholeLog(segments, wal, n)
  {
    if m < n {
      WholeLogPrefix(segments, wal, m, n - 1);
    }
  }

  /** An entry of the whole log is one of some segment's log. */
  lemma {:induction false} InWholeLog(segments: set<nat>, wal: Wals, n: nat, e: Logged)
    requires e in WholeLog(segments, wal, n)
    ensures exists g :: g in wal && g in segments && e in wal[g]
  {
    if n > 0 && e in WholeLog(segments, wal, n - 1) {
      InWholeLog(segments, wal, n - 1, e);
    }
  }

  lemma {:induction false} ReplayAppend(s: IndexState, a: seq<Logged>, b: seq<Logged>)
    ensures ReplayAll(s, a + b) == ReplayAll(ReplayAll(s, a), b)
    decreases |b|
  {
    if b == [] {
      assert a + b == a;
    } else {
      ReplayAppend(s, a, b[..|b| - 1]);
      assert (a + b)[..|a + b| - 1] == a + b[..|b| - 1];
    }
  }

  // ---- the manifests after replay

  /** The manifest of blob `b` is made from the first entry that logs it. */
  ghost predicate FromLog(log: seq<Logged>, b: BlobId, blob: BlobEntry) {
    exists i :: 0 <= i < |log| && log[i].blobId == b && FirstLogged(log, i) && blob == Manifest(log[i])
  }

  lemma FromLogGrows(init: seq<Logged>, last: Logged, b: BlobId, blob: BlobEntry)
    ensures FromLog(init, b, blob) ==> FromLog(init + [last], b, blob)
    ensures last.blobId == b && blob == Manifest(last) && (forall j :: 0 <= j < |init| ==> init[j].blobId != b) ==>
              FromLog(init + [last], b, blob)
  {
    var log := init + [last];
    if i :| 0 <= i < |init| && init[i].blobId == b && FirstLogged(init, i) && blob == Manifest(init[i]) {
      assert log[i] == init[i] && FirstLogged(log, i);
    }
    if last.blobId == b && blob == Manifest(last) && (forall j :: 0 <= j < |init| ==> init[j].blobId != b) {
      assert log[|init|] == last && FirstLogged(log, |init|);
    }
  }

  /** Every manifest that was there stays as it was; each logged blob has one afterwards, from its first entry. */
  lemma {:induction false} ReplayManifests(s: IndexState, log: seq<Logged>)
    ensures var s' := ReplayAll(s, log);
            && s'.refs == s.refs && s'.stats == s.stats
            && (forall b :: b in s.blobs ==> b in s'.blobs && s'.blobs[b] == s.blobs[b])
            && (forall i :: 0 <= i < |log| ==> log[i].blobId in s'.blobs)
            && (forall b :: b in s'.blobs && b !in s.blobs ==> FromLog(log, b, s'.blobs[b]))
    decreases |log|
  {
    if log != [] {
      var init, last := log[..|log| - 1], log[|log| - 1];
      ReplayManifests(s, init);
      var s1, s' := ReplayAll(s, init), ReplayAll(s, log);
      assert log == init + [last];
      forall b | b in s'.blobs && b !in s.blobs
        ensures FromLog(log, b, s'.blobs[b])
      {
        FromLogGrows(init, last, b, s'.blobs[b]);
      }
    }
  }

  lemma OldManifest(s: IndexState, log: seq<Logged>, b: BlobId)
    requires b in s.blobs
    ensures b in ReplayAll(s, log).blobs && ReplayAll(s, log).blobs[b] == s.blobs[b]
  {
    ReplayManifests(s, log);
  }

  /** The entry a new manifest was made from. */
  lemma NewManifest(s: IndexState, log: seq<Logged>, b: BlobId) returns (e: Logged)
    requires b in ReplayAll(s, log).blobs && b !in s.blobs
    ensures e in log && e.blobId == b && ReplayAll(s, log).blobs[b] == Manifest(e)
  {
    ReplayManifests(s, log);
    var i :| 0 <= i < |log| && log[i].blobId == b && ReplayAll(s, log).blobs[b] == Manifest(log[i]);
    e := log[i];
  }

  /** Where every logged blob is indexed, replay does nothing; and only there. */
  lemma {:induction false} ReplayUntouchedIff(s: IndexState, log: seq<Logged>)
    ensures ReplayAll(s, log) == s <==> forall i :: 0 <= i < |log| ==> log[i].blobId in s.blobs
    decreases |log|
  {
    ReplayManifests(s, log);
    if log != [] && forall i :: 0 <= i < |log| ==> log[i].blobId in s.blobs {
      ReplayUntouchedIff(s, log[..|log| - 1]);
    }
  }

  /** Replay that stopped after `n` entries can be started over: the outcome is that of one full replay. */
  lemma ReplayResumes(s: IndexState, log: seq<Logged>, n: nat)
    requires n <= |log|
    ensures ReplayAll(ReplayAll(s, log[..n]), log) == ReplayAll(s, log)
  {
    var s1 := ReplayAll(s, log[..n]);
    assert log == log[..n] + log[n..];
    ReplayAppend(s, log[..n], log[n..]);
    ReplayAppend(s1, log[..n], log[n..]);
    ReplayManifests(s, log[..n]);
    ReplayUntouchedIff(s1, log[..n]);
  }

  // ---- the chunk table after replay

  /** What the loop over a list of chunks writes: for each of them the last entry, counted once. */
  lemma {:induction false} PutChunksAt(table: ChunkTable, entries: seq<ChunkEntry>, c: ChunkId)
    ensures var after := PutChunks(table, entries);
            if c in EntryIds(entries) then
              c in after && after[c] == LastOf(entries, c).(refCount := 1)
            else
              (c in after <==> c in table) && (c in after ==> after[c] == table[c])
    decreases |entries|
  {
    if entries != [] {
      PutChunksAt(table, entries[..|entries| - 1], c);
      EntryIdsSnoc(entries, c);
    }
  }

  lemma {:induction false} PutChunksAppend(table: ChunkTable, a: seq<ChunkEntry>, b: seq<ChunkEntry>)
    ensures PutChunks(table, a + b) == PutChunks(PutChunks(table, a), b)
    decreases |b|
  {
    if b == [] {
      assert a + b == a;
    } else {
      PutChunksAppend(table, a, b[..|b| - 1]);
      assert (a + b)[..|a + b| - 1] == a + b[..|b| - 1];
    }
  }

  lemma MultAppend(a: seq<ChunkEntry>, b: seq<ChunkEntry>, c: ChunkId)
    ensures Mult(EntryIds(a + b), c) == Mult(EntryIds(a), c) + Mult(EntryIds(b), c)
  {
    assert EntryIds(a + b) == EntryIds(a) + EntryIds(b);
  }

  /** The entry is skipped exactly if its blob has a manifest or was logged before. */
  lemma ReplayedIff(s: IndexState, log: seq<Logged>)
    requires log != []
    ensures var n := |log| - 1;
            Replayed(s.blobs, log, n) <==> log[n].blobId !in ReplayAll(s, log[..n]).blobs
  {
    var n := |log| - 1;
    var init := log[..n];
    ReplayManifests(s, init);
    if log[n].blobId in ReplayAll(s, init).blobs && log[n].blobId !in s.blobs {
      var i :| 0 <= i < |init| && init[i].blobId == log[n].blobId;
      assert init[i] == log[i];
    }
    if !Replayed(s.blobs, log, n) && log[n].blobId !in s.blobs {
      var j :| 0 <= j < n && log[j].blobId == log[n].blobId;
      assert init[j] == log[j];
    }
  }

  /** All of replay is one pass over the new chunks, and the claims of the new manifests are their occurrences. */
  lemma {:induction false} ReplayIsOnePass(s: IndexState, log: seq<Logged>, c: ChunkId)
    ensures ReplayAll(s, log).chunks == PutChunks(s.chunks, NewChunks(s.blobs, log))
    ensures Owed(ReplayAll(s, log).blobs, c) == Owed(s.blobs, c) + Mult(EntryIds(NewChunks(s.blobs, log)), c)
    decreases |log|
  {
    if log != [] {
      var n := |log| - 1;
      var init, last := log[..n], log[n];
      ReplayIsOnePass(s, init, c);
      ReplayedIff(s, log);
      var more := if Replayed(s.blobs, log, n) then last.chunks else [];
      PutChunksAppend(s.chunks, NewChunks(s.blobs, init), more);
      MultAppend(NewChunks(s.blobs, init), more, c);
      assert PutChunks(ReplayAll(s, init).chunks, []) == ReplayAll(s, init).chunks;
      if Replayed(s.blobs, log, n) {
        NewManifestClaims(ReplayAll(s, init), last, c);
      }
    }
  }

  lemma NewManifestClaims(s: IndexState, e: Logged, c: ChunkId)
    requires e.blobId !in s.blobs
    ensures Owed(ReplayOne(s, e).blobs, c) == Owed(s.blobs, c) + Mult(EntryIds(e.chunks), c)
  {
    MapSumPut(s.blobs, e.blobId, Manifest(e), Claim(c));
    assert Claim(c)(Manifest(e)) == 1 * Mult(EntryIds(e.chunks), c);
  }

  /**
   The chunk table after replaying any log: a chunk of a replayed blob has the
   record of the last replayed entry that logs it, counted once; every other
   record is as it was.
   */
  lemma ReplayedRecord(s: IndexState, log: seq<Logged>, c: ChunkId)
    ensures var chunks, added := ReplayAll(s, log).chunks, NewChunks(s.blobs, log);
            if c in EntryIds(added) then
              c in chunks && chunks[c] == LastOf(added, c).(refCount := 1)
            else
              (c in chunks <==> c in s.chunks) && (c in chunks ==> chunks[c] == s.chunks[c])
  {
    ReplayIsOnePass(s, log, c);
    PutChunksAt(s.chunks, NewChunks(s.blobs, log), c);
  }

  lemma ReplayedPrefix(blobs: BlobTable, log: seq<Logged>, n: nat, i: nat)
    requires i < n <= |log|
    ensures Replayed(blobs, log[..n], i) <==> Replayed(blobs, log, i)
  {
    assert forall j :: 0 <= j <= i ==> log[..n][j] == log[j];
  }

  predicate FromReplayed(blobs: BlobTable, log: seq<Logged>, e: ChunkEntry) {
    exists i :: 0 <= i < |log| && Replayed(blobs, log, i) && e in log[i].chunks
  }

  lemma FromLonger(blobs: BlobTable, log: seq<Logged>, e: ChunkEntry)
    requires log != []
    ensures var n := |log| - 1;
            FromReplayed(blobs, log, e)
            <==> FromReplayed(blobs, log[..n], e) || (Replayed(blobs, log, n) && e in log[n].chunks)
  {
    var n := |log| - 1;
    if FromReplayed(blobs, log[..n], e) {
      var i :| 0 <= i < n && Replayed(blobs, log[..n], i) && e in log[..n][i].chunks;
      ReplayedPrefix(blobs, log, n, i);
    } else if FromReplayed(blobs, log, e) {
      var i :| 0 <= i < |log| && Replayed(blobs, log, i) && e in log[i].chunks;
      if i < n {
        ReplayedPrefix(blobs, log, n, i);
      }
    }
  }

  /** The new chunks come from replayed entries, and all of those are there. */
  lemma {:induction false} NewChunksFrom(blobs: BlobTable, log: seq<Logged>, e: ChunkEntry)
    ensures e in NewChunks(blobs, log) <==> FromReplayed(blobs, log, e)
    decreases |log|
  {
    if log != [] {
      var n := |log| - 1;
      NewChunksFrom(blobs, log[..n], e);
      FromLonger(blobs, log, e);
    }
  }

  // ---- reference counts

  /** The gap of every chunk after replaying any log. */
  lemma ReplayGap(s: IndexState, log: seq<Logged>, c: ChunkId)
    ensures var ids := EntryIds(NewChunks(s.blobs, log));
            Gap(ReplayAll(s, log), c) == if c in ids then 1 - Owed(s.blobs, c) - Mult(ids, c) else Gap(s, c)
  {
    ReplayIsOnePass(s, log, c);
    ReplayedRecord(s, log, c);
  }

  lemma ReplayBacked(s: IndexState, log: seq<Logged>)
    requires NonNegative(s) && Backed(s)
    ensures NonNegative(ReplayAll(s, log)) && Backed(ReplayAll(s, log))
  {
    var s' := ReplayAll(s, log);
    ReplayManifests(s, log);
    forall b
      ensures RefsTo(s'.refs, b) <= BlobCountOf(s'.blobs, b)
    {
      assert RefsTo(s.refs, b) <= BlobCountOf(s.blobs, b);
    }
    forall b | b in s'.blobs && b !in s.blobs
      ensures s'.blobs[b].refCount >= 0
    {
      assert FromLog(log, b, s'.blobs[b]);
    }
    forall c | c in s'.chunks
      ensures s'.chunks[c].refCount >= 0
    {
      ReplayedRecord(s, log, c);
    }
  }

  /** Nothing is owed of a chunk exactly if no manifest with references lists it. */
  lemma UnclaimedIff(blobs: BlobTable, c: ChunkId)
    requires forall b :: b in blobs ==> blobs[b].refCount >= 0
    ensures Owed(blobs, c) >= 0
    ensures Owed(blobs, c) == 0 <==> Unclaimed(blobs, c)
  {
    OwedCoversManifest(blobs, c, c);
    if Unclaimed(blobs, c) {
      forall b | b in blobs
        ensures Claim(c)(blobs[b]) == 0
      {
        var n, m := blobs[b].refCount, Mult(blobs[b].chunkIds, c);
        assert n * m == 0 by {
          if n > 0 {
            assert m == 0;
          }
        }
      }
      MapSumZero(blobs, Claim(c));
    } else {
      var b :| b in blobs && blobs[b].refCount > 0 && c in blobs[b].chunkIds;
      OwedCoversManifest(blobs, b, c);
    }
  }

  /** The new chunks are pairwise distinct and unreferenced. */
  predicate Fresh(s: IndexState, log: seq<Logged>) {
    var ids := EntryIds(NewChunks(s.blobs, log));
    forall c :: c in ids ==> Mult(ids, c) == 1 && CountOf(s.chunks, c) == 0
  }

  ghost predicate Overdrawn(s: IndexState) {
    NonNegative(s) && Backed(s) && exists c :: Gap(s, c) < 0
  }

  /**
   Replaying a log keeps counts equal to claims exactly when its new chunks are
   pairwise distinct and unreferenced. Otherwise some chunk ends up counted less
   often than manifests claim it.
   */
  lemma ReplayBooksIff(s: IndexState, log: seq<Logged>)
    requires Books(s)
    ensures Books(ReplayAll(s, log)) <==> Fresh(s, log)
    ensures Fresh(s, log) || Overdrawn(ReplayAll(s, log))
  {
    var s' := ReplayAll(s, log);
    var ids := EntryIds(NewChunks(s.blobs, log));
    ReplayBacked(s, log);
    forall c {
      ReplayBalanceIff(s, log, c);
    }
    if !Fresh(s, log) {
      var c :| c in ids && !(Mult(ids, c) == 1 && CountOf(s.chunks, c) == 0);
      assert Gap(s', c) < 0;
    }
  }

  /** The same for one chunk. */
  lemma ReplayBalanceIff(s: IndexState, log: seq<Logged>, c: ChunkId)
    requires Books(s)
    ensures var ids := EntryIds(NewChunks(s.blobs, log));
            && Gap(ReplayAll(s, log), c) <= 0
            && (Gap(ReplayAll(s, log), c) == 0 <==> (c in ids ==> Mult(ids, c) == 1 && CountOf(s.chunks, c) == 0))
  {
    ReplayGap(s, log, c);
    assert Gap(s, c) == 0;
    OwedCoversManifest(s.blobs, c, c);
  }

  /** Where counts only cover claims: a new chunk stays covered exactly if it is logged once and claimed by nobody. */
  lemma ReplayCoversIff(s: IndexState, log: seq<Logged>, c: ChunkId)
    requires NonNegative(s) && c in EntryIds(NewChunks(s.blobs, log))
    ensures Gap(ReplayAll(s, log), c) >= 0
       <==> Mult(EntryIds(NewChunks(s.blobs, log)), c) == 1 && Unclaimed(s.blobs, c)
    ensures Gap(ReplayAll(s, log), c) <= 0
  {
    ReplayGap(s, log, c);
    UnclaimedIff(s.blobs, c);
  }
}
