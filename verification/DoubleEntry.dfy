/**
 Double-entry bookkeeping of reference counts: what a chunk record says about
 itself is what the manifests say about it, and a manifest counts at least the
 refs that name it. Every index transaction keeps this, with one exception that
 is characterised exactly (PutKeepsDoubleEntryIff).
 */
module DoubleEntry {
  import opened Base
  import opened Records
  import opened IndexSpec

  function Mult(ids: seq<ChunkId>, c: ChunkId): nat {
    multiset(ids)[c]
  }

  function CountOf(chunks: ChunkTable, c: ChunkId): int {
    if c in chunks then chunks[c].refCount else 0
  }

  function BlobCountOf(blobs: BlobTable, b: BlobId): int {
    if b in blobs then blobs[b].refCount else 0
  }

  /** What one manifest claims of chunk `c`. */
  function Claim(c: ChunkId): BlobEntry -> int {
    (b: BlobEntry) => b.refCount * Mult(b.chunkIds, c)
  }

  /** What all manifests together claim of chunk `c`. */
  ghost function Owed(blobs: BlobTable, c: ChunkId): int {
    MapSum(blobs, Claim(c))
  }

  function PointsAt(b: BlobId): RefEntry -> int {
    (r: RefEntry) => if r.blobId == b then 1 else 0
  }

  /** How many refs, in any namespace, name blob `b`. */
  ghost function RefsTo(refs: RefTable, b: BlobId): int {
    MapSum(refs, PointsAt(b))
  }

  predicate NonNegative(s: IndexState) {
    && (forall b :: b in s.blobs ==> s.blobs[b].refCount >= 0)
    && (forall c :: c in s.chunks ==> s.chunks[c].refCount >= 0)
  }

  /** How far the count of a chunk exceeds what the manifests claim of it. */
  ghost function Gap(s: IndexState, c: ChunkId): int {
    CountOf(s.chunks, c) - Owed(s.blobs, c)
  }

  ghost predicate Backed(s: IndexState) {
    forall b :: RefsTo(s.refs, b) <= BlobCountOf(s.blobs, b)
  }

  /**
   No chunk outside `bad` is counted less often than it is claimed: enough for no
   referenced byte of it to be lost. What follows holds chunk by chunk, so a chunk
   that replay has left in disorder does not spoil the others.
   */
  ghost predicate SolventBut(s: IndexState, bad: set<ChunkId>) {
    NonNegative(s) && Backed(s) && forall c :: c !in bad ==> Gap(s, c) >= 0
  }

  ghost predicate Solvent(s: IndexState) {
    SolventBut(s, {})
  }

  /** Counts and claims agree. */
  ghost predicate Books(s: IndexState) {
    NonNegative(s) && Backed(s) && forall c :: Gap(s, c) == 0
  }

  /** The arguments `Put` builds: one blob, its chunks in order, all in the writer's namespace. */
  predicate PutArguments(ref: RefEntry, blob: BlobEntry, entries: seq<ChunkEntry>) {
    && ref.blobId == blob.blobId
    && blob.chunkIds == EntryIds(entries)
    && (forall e :: e in entries ==> e.ns == ref.ns)
  }

  /** The chunk list the manifest ends up with: one already indexed under this id is kept. */
  function KeptList(blobs: BlobTable, blob: BlobEntry): seq<ChunkId> {
    if blob.blobId in blobs then blobs[blob.blobId].chunkIds else blob.chunkIds
  }

  // ---- how the loops move counts

  /** Equal but for the reference counts. */
  predicate SameRecords(a: ChunkTable, b: ChunkTable) {
    a.Keys == b.Keys && forall c :: c in a ==> a[c].(refCount := 0) == b[c].(refCount := 0)
  }

  lemma MultSnoc(ids: seq<ChunkId>, c: ChunkId)
    requires ids != []
    ensures Mult(ids, c) == Mult(ids[..|ids| - 1], c) + (if ids[|ids| - 1] == c then 1 else 0)
  {
    assert ids == ids[..|ids| - 1] + [ids[|ids| - 1]];
  }

  /** The decrement loop takes off each chunk its multiplicity, stopping at zero, and nothing else. */
  lemma {:induction false} DecChunksCounts(chunks: ChunkTable, ids: seq<ChunkId>)
    requires forall c :: c in chunks ==> chunks[c].refCount >= 0
    ensures var after := DecChunks(chunks, ids).chunks;
            && SameRecords(chunks, after)
            && (forall c :: CountOf(after, c) == Max(0, CountOf(chunks, c) - Mult(ids, c)))
    decreases |ids|
  {
    if ids != [] {
      DecChunksCounts(chunks, ids[..|ids| - 1]);
      forall c {
        MultSnoc(ids, c);
      }
    }
  }

  /** An existing record that the put will replace because another namespace owns it. */
  predicate Foreign(ns: NsId, chunks: ChunkTable, c: ChunkId) {
    c in chunks && chunks[c].ns != ns
  }

  lemma UpsertOneCounts(ns: NsId, u: Upsert, e: ChunkEntry, c: ChunkId)
    requires e.ns == ns
    ensures var after := UpsertOne(ns, u, e).chunks;
            if c == e.chunkId then
              c in after && after[c].ns == ns
              && after[c].refCount == 1 + (if Foreign(ns, u.chunks, c) then 0 else CountOf(u.chunks, c))
            else
              (c in after <==> c in u.chunks) && (c in after ==> after[c] == u.chunks[c])
  {
  }

  lemma EntryIdsSnoc(entries: seq<ChunkEntry>, c: ChunkId)
    requires entries != []
    ensures var init, last := entries[..|entries| - 1], entries[|entries| - 1].chunkId;
            && (c in EntryIds(entries) <==> c in EntryIds(init) || c == last)
            && Mult(EntryIds(entries), c) == Mult(EntryIds(init), c) + (if c == last then 1 else 0)
  {
    var init, last := entries[..|entries| - 1], entries[|entries| - 1].chunkId;
    assert EntryIds(entries) == EntryIds(init) + [last];
  }

  /** The upsert loop adds each chunk its multiplicity, except that a foreign record starts over. */
  lemma {:induction false} UpsertCounts(ns: NsId, chunks: ChunkTable, entries: seq<ChunkEntry>, c: ChunkId)
    requires forall e :: e in entries ==> e.ns == ns
    ensures var after := UpsertAll(ns, chunks, entries).chunks;
            && (c in after <==> c in chunks || c in EntryIds(entries))
            && (c in EntryIds(entries) ==> after[c].ns == ns)
            && (c !in EntryIds(entries) && c in chunks ==> after[c] == chunks[c])
            && CountOf(after, c) == Mult(EntryIds(entries), c)
                 + (if c in EntryIds(entries) && Foreign(ns, chunks, c) then 0 else CountOf(chunks, c))
    decreases |entries|
  {
    if entries != [] {
      var init, last := entries[..|entries| - 1], entries[|entries| - 1];
      assert last in entries && forall e :: e in init ==> e in entries;
      UpsertCounts(ns, chunks, init, c);
      UpsertOneCounts(ns, UpsertAll(ns, chunks, init), last, c);
      EntryIdsSnoc(entries, c);
    }
  }

  // ---- how the claims move

  lemma MulStep(n: int, m: int)
    ensures (n + 1) * m == n * m + m && (n - 1) * m == n * m - m
  {
  }

  lemma AddBlobClaims(blobs: BlobTable, blob: BlobEntry, c: ChunkId)
    ensures Owed(AddBlob(blobs, blob), c) == Owed(blobs, c) + Mult(KeptList(blobs, blob), c)
  {
    var after := AddBlob(blobs, blob)[blob.blobId];
    MapSumPut(blobs, blob.blobId, after, Claim(c));
    var m := Mult(KeptList(blobs, blob), c);
    if blob.blobId in blobs {
      var n := blobs[blob.blobId].refCount;
      MulStep(n, m);
      assert Claim(c)(blobs[blob.blobId]) == n * m && Claim(c)(after) == (n + 1) * m;
    } else {
      assert Claim(c)(after) == 1 * m;
    }
  }

  lemma ReleaseBlobClaims(blobs: BlobTable, id: BlobId, c: ChunkId)
    requires id in blobs
    ensures var after := blobs[id := blobs[id].(refCount := blobs[id].refCount - 1)];
            Owed(after, c) == Owed(blobs, c) - Mult(blobs[id].chunkIds, c)
  {
    var n, m := blobs[id].refCount, Mult(blobs[id].chunkIds, c);
    var after := blobs[id].(refCount := n - 1);
    MapSumPut(blobs, id, after, Claim(c));
    MulStep(n, m);
    assert Claim(c)(blobs[id]) == n * m && Claim(c)(after) == (n - 1) * m;
  }

  /** A referenced manifest is one of the terms of what is owed. */
  lemma OwedCoversManifest(blobs: BlobTable, id: BlobId, c: ChunkId)
    requires forall b :: b in blobs ==> blobs[b].refCount >= 0
    ensures Owed(blobs, c) >= 0
    ensures id in blobs && blobs[id].refCount >= 1 ==> Owed(blobs, c) >= Mult(blobs[id].chunkIds, c)
  {
    forall b | b in blobs
      ensures Claim(c)(blobs[b]) >= 0
    {
      assert blobs[b].refCount * Mult(blobs[b].chunkIds, c) >= 0;
    }
    MapSumTerm(blobs, Claim(c));
    if id in blobs && blobs[id].refCount >= 1 {
      var n, m := blobs[id].refCount, Mult(blobs[id].chunkIds, c);
      assert n * m == (n - 1) * m + m && (n - 1) * m >= 0;
    }
  }

  /** A ref forces its manifest to exist with a positive count. */
  lemma RefIsCounted(s: IndexState, k: (NsId, Key))
    requires Backed(s) && k in s.refs
    ensures var b := s.refs[k].blobId; b in s.blobs && s.blobs[b].refCount >= 1
  {
    var b := s.refs[k].blobId;
    forall j | j in s.refs
      ensures PointsAt(b)(s.refs[j]) >= 0
    {
    }
    MapSumTerm(s.refs, PointsAt(b));
    assert RefsTo(s.refs, b) <= BlobCountOf(s.blobs, b);
  }

  /**
   No referenced blob misses a chunk, and no decrement a delete or an overwrite
   makes can underflow: the manifest counts this ref, and every chunk it lists
   has a record counting at least the occurrences in it.
   */
  lemma ReferencedBlobIsWhole(s: IndexState, k: (NsId, Key), bad: set<ChunkId>)
    requires SolventBut(s, bad) && k in s.refs
    ensures var b := s.refs[k].blobId;
            && b in s.blobs && s.blobs[b].refCount >= 1
            && (forall c :: c !in bad ==> CountOf(s.chunks, c) >= Mult(s.blobs[b].chunkIds, c))
            && (forall c :: c in s.blobs[b].chunkIds && c !in bad ==> c in s.chunks && s.chunks[c].refCount >= 1)
  {
    RefIsCounted(s, k);
    var b := s.refs[k].blobId;
    forall c | c !in bad
      ensures CountOf(s.chunks, c) >= Mult(s.blobs[b].chunkIds, c)
    {
      OwedCoversManifest(s.blobs, b, c);
      assert Gap(s, c) >= 0;
    }
    forall c | c in s.blobs[b].chunkIds && c !in bad
      ensures c in s.chunks && s.chunks[c].refCount >= 1
    {
      assert CountOf(s.chunks, c) >= Mult(s.blobs[b].chunkIds, c);
    }
  }

  // ---- each transaction

  /** Releasing a counted manifest moves counts and claims by the same amount. */
  lemma ReleaseKeepsBalance(s: IndexState, blobs: BlobTable, id: BlobId, bad: set<ChunkId>)
    requires NonNegative(s)
    requires id in blobs && blobs[id].refCount >= 1
    requires forall b :: b in blobs ==> blobs[b].refCount >= 0
    requires forall c :: c !in bad ==> CountOf(s.chunks, c) >= Mult(blobs[id].chunkIds, c)
    ensures var rel := ReleaseBlob(blobs, s.chunks, id);
            && SameRecords(s.chunks, rel.dec.chunks)
            && NonNegative(IndexState(s.refs, rel.blobs, rel.dec.chunks, s.stats))
            && (forall c :: c !in bad ==>
                  CountOf(rel.dec.chunks, c) == CountOf(s.chunks, c) - Mult(blobs[id].chunkIds, c))
            && (forall c :: Owed(rel.blobs, c) == Owed(blobs, c) - Mult(blobs[id].chunkIds, c))
  {
    var rel := ReleaseBlob(blobs, s.chunks, id);
    DecChunksCounts(s.chunks, blobs[id].chunkIds);
    forall c | c in rel.dec.chunks
      ensures rel.dec.chunks[c].refCount >= 0
    {
      assert CountOf(rel.dec.chunks, c) >= 0;
    }
    forall c {
      ReleaseBlobClaims(blobs, id, c);
    }
  }

  lemma RefsToPut(refs: RefTable, k: (NsId, Key), r: RefEntry, b: BlobId)
    ensures RefsTo(refs[k := r], b) == RefsTo(refs, b) + (if r.blobId == b then 1 else 0)
                                       - (if k in refs && refs[k].blobId == b then 1 else 0)
  {
    MapSumPut(refs, k, r, PointsAt(b));
  }

  lemma RefsToDrop(refs: RefTable, k: (NsId, Key), b: BlobId)
    ensures RefsTo(refs - {k}, b) == RefsTo(refs, b) - (if k in refs && refs[k].blobId == b then 1 else 0)
  {
    MapSumDrop(refs, k, PointsAt(b));
  }

  /** Some chunk the put counts is a record of another namespace that is still referenced. */
  predicate LiveForeign(s: IndexState, ref: RefEntry, blob: BlobEntry) {
    var before := ReleaseReplaced(s, ref, blob).dec.chunks;
    exists c :: c in before && c in blob.chunkIds && before[c].ns != ref.ns && before[c].refCount > 0
  }

  /** Steps 3 and 4 lower the gap of each chunk by its multiplicity in the kept chunk list. */
  lemma PutBeforeUpsert(s: IndexState, ref: RefEntry, blob: BlobEntry, bad: set<ChunkId>)
    requires SolventBut(s, bad) && ref.blobId == blob.blobId
    ensures var rel := ReleaseReplaced(s, ref, blob);
            && SameRecords(s.chunks, rel.dec.chunks)
            && NonNegative(IndexState(s.refs, rel.blobs, rel.dec.chunks, s.stats))
            && (forall c :: c !in bad ==>
                  CountOf(rel.dec.chunks, c) - Owed(rel.blobs, c) == Gap(s, c) - Mult(KeptList(s.blobs, blob), c))
  {
    var added := AddBlob(s.blobs, blob);
    forall c
      ensures CountOf(s.chunks, c) - Owed(added, c) == Gap(s, c) - Mult(KeptList(s.blobs, blob), c)
    {
      AddBlobClaims(s.blobs, blob, c);
    }
    var k := (ref.ns, ref.key);
    if k in s.refs && !SameContent(s, ref) {
      ReferencedBlobIsWhole(s, k, bad);
      ReleaseKeepsBalance(s, added, s.refs[k].blobId, bad);
    }
  }

  /** How a put moves the gap between the count of a chunk and the claims on it. */
  lemma PutGap(s: IndexState, ref: RefEntry, blob: BlobEntry, entries: seq<ChunkEntry>, c: ChunkId, bad: set<ChunkId>)
    requires SolventBut(s, bad) && c !in bad && PutArguments(ref, blob, entries)
    ensures var s' := CommitPut(s, ref, blob, entries).0;
            var before := ReleaseReplaced(s, ref, blob).dec.chunks;
            && CountOf(s'.chunks, c) >= 0
            && Gap(s', c) == Gap(s, c) + Mult(blob.chunkIds, c) - Mult(KeptList(s.blobs, blob), c)
                 - (if c in blob.chunkIds && Foreign(ref.ns, before, c) then before[c].refCount else 0)
  {
    var rel := ReleaseReplaced(s, ref, blob);
    PutBeforeUpsert(s, ref, blob, bad);
    UpsertCounts(ref.ns, rel.dec.chunks, entries, c);
    assert CountOf(rel.dec.chunks, c) >= 0;
    assert CountOf(rel.dec.chunks, c) - Owed(rel.blobs, c) == Gap(s, c) - Mult(KeptList(s.blobs, blob), c);
  }

  lemma PutCountsNonNegative(s: IndexState, ref: RefEntry, blob: BlobEntry, entries: seq<ChunkEntry>, bad: set<ChunkId>)
    requires SolventBut(s, bad) && PutArguments(ref, blob, entries)
    ensures NonNegative(CommitPut(s, ref, blob, entries).0)
  {
    var s' := CommitPut(s, ref, blob, entries).0;
    var rel := ReleaseReplaced(s, ref, blob);
    PutBeforeUpsert(s, ref, blob, bad);
    forall c | c in s'.chunks
      ensures s'.chunks[c].refCount >= 0
    {
      UpsertCounts(ref.ns, rel.dec.chunks, entries, c);
      assert CountOf(rel.dec.chunks, c) >= 0 && CountOf(s'.chunks, c) >= 0;
    }
  }

  lemma PutKeepsBacked(s: IndexState, ref: RefEntry, blob: BlobEntry, entries: seq<ChunkEntry>)
    requires Backed(s) && ref.blobId == blob.blobId
    ensures Backed(CommitPut(s, ref, blob, entries).0)
  {
    var s' := CommitPut(s, ref, blob, entries).0;
    var k := (ref.ns, ref.key);
    if k in s.refs {
      RefIsCounted(s, k);
    }
    forall b
      ensures RefsTo(s'.refs, b) <= BlobCountOf(s'.blobs, b)
    {
      RefsToPut(s.refs, k, ref, b);
      assert RefsTo(s.refs, b) <= BlobCountOf(s.blobs, b);
    }
  }

  /**
   With a chunker that gives each content one chunk list, CommitPut keeps the
   books exactly when none of the chunks it counts is a live record of another
   namespace: that branch restarts the count of a record other manifests claim.
   */
  lemma PutKeepsDoubleEntryIff(s: IndexState, ref: RefEntry, blob: BlobEntry, entries: seq<ChunkEntry>)
    requires Books(s) && PutArguments(ref, blob, entries)
    requires KeptList(s.blobs, blob) == blob.chunkIds
    ensures Books(CommitPut(s, ref, blob, entries).0) <==> !LiveForeign(s, ref, blob)
  {
    var s' := CommitPut(s, ref, blob, entries).0;
    var before := ReleaseReplaced(s, ref, blob).dec.chunks;
    PutBeforeUpsert(s, ref, blob, {});
    PutKeepsBacked(s, ref, blob, entries);
    PutCountsNonNegative(s, ref, blob, entries, {});
    forall c
      ensures Gap(s', c) == 0
         <==> !(c in before && c in blob.chunkIds && before[c].ns != ref.ns && before[c].refCount > 0)
    {
      PutGap(s, ref, blob, entries, c, {});
      assert Gap(s, c) == 0 && CountOf(before, c) >= 0;
    }
  }

  /**
   Inside one namespace CommitPut keeps the books exactly when the list it
   counts holds each chunk as often as the manifest that ends up indexed: an
   existing manifest is kept while the new list is counted.
   */
  lemma PutNeedsOneChunkListIff(s: IndexState, ref: RefEntry, blob: BlobEntry, entries: seq<ChunkEntry>)
    requires Books(s) && PutArguments(ref, blob, entries) && !LiveForeign(s, ref, blob)
    ensures Books(CommitPut(s, ref, blob, entries).0)
       <==> multiset(KeptList(s.blobs, blob)) == multiset(blob.chunkIds)
  {
    var s' := CommitPut(s, ref, blob, entries).0;
    var before := ReleaseReplaced(s, ref, blob).dec.chunks;
    var kept := KeptList(s.blobs, blob);
    PutBeforeUpsert(s, ref, blob, {});
    PutKeepsBacked(s, ref, blob, entries);
    PutCountsNonNegative(s, ref, blob, entries, {});
    forall c
      ensures Gap(s', c) == 0 <==> multiset(kept)[c] == multiset(blob.chunkIds)[c]
    {
      PutGap(s, ref, blob, entries, c, {});
      assert Gap(s, c) == 0 && CountOf(before, c) >= 0;
    }
    if Books(s') {
      forall c
        ensures multiset(kept)[c] == multiset(blob.chunkIds)[c]
      {
        assert Gap(s', c) == 0;
      }
    }
  }

  /** Same gaps, same backing: what the other transactions keep. */
  ghost predicate KeepsGapsBut(s: IndexState, s': IndexState, bad: set<ChunkId>) {
    NonNegative(s') && Backed(s') && forall c :: c !in bad ==> Gap(s', c) == Gap(s, c)
  }

  ghost predicate KeepsGaps(s: IndexState, s': IndexState) {
    KeepsGapsBut(s, s', {})
  }

  lemma KeptGapsStaySolvent(s: IndexState, s': IndexState, bad: set<ChunkId>)
    requires SolventBut(s, bad) && KeepsGapsBut(s, s', bad)
    ensures SolventBut(s', bad)
  {
    assert forall c :: c !in bad ==> Gap(s', c) == Gap(s, c);
  }

  lemma DeleteKeepsGaps(s: IndexState, ns: NsId, key: Key, bad: set<ChunkId>)
    requires SolventBut(s, bad)
    ensures CommitDelete(s, ns, key).Ok? <==> (ns, key) in s.refs
    ensures CommitDelete(s, ns, key).Ok? ==>
              && KeepsGapsBut(s, CommitDelete(s, ns, key).value, bad)
              && SameRecords(s.chunks, CommitDelete(s, ns, key).value.chunks)
  {
    var k := (ns, key);
    if k in s.refs {
      var s' := CommitDelete(s, ns, key).value;
      ReferencedBlobIsWhole(s, k, bad);
      ReleaseKeepsBalance(s, s.blobs, s.refs[k].blobId, bad);
      forall b
        ensures RefsTo(s'.refs, b) <= BlobCountOf(s'.blobs, b)
      {
        RefsToDrop(s.refs, k, b);
        assert RefsTo(s.refs, b) <= BlobCountOf(s.blobs, b);
      }
    }
  }

  lemma RenameKeepsGaps(s: IndexState, ns: NsId, oldKey: Key, newKey: Key, bad: set<ChunkId>)
    requires SolventBut(s, bad)
    ensures var r := CommitRenameRef(s, ns, oldKey, newKey); r.Ok? ==> KeepsGapsBut(s, r.value, bad)
  {
    var r := CommitRenameRef(s, ns, oldKey, newKey);
    if r.Ok? {
      var k, k' := (ns, oldKey), (ns, newKey);
      var ref := s.refs[k].(key := newKey);
      forall b
        ensures RefsTo(r.value.refs, b) <= BlobCountOf(r.value.blobs, b)
      {
        RefsToPut(s.refs, k', ref, b);
        RefsToDrop(s.refs[k' := ref], k, b);
        assert RefsTo(s.refs, b) <= BlobCountOf(s.blobs, b);
      }
    }
  }

  /** Purging is safe at any moment: a manifest that goes claims nothing and backs no ref. */
  lemma PurgeKeepsGaps(s: IndexState, id: BlobId, bad: set<ChunkId>)
    requires SolventBut(s, bad)
    ensures KeepsGapsBut(s, PurgeBlob(s, id), bad)
  {
    var s' := PurgeBlob(s, id);
    if s' != s {
      forall c
        ensures Gap(s', c) == Gap(s, c)
      {
        MapSumDrop(s.blobs, id, Claim(c));
        assert 0 * Mult(s.blobs[id].chunkIds, c) == 0;
      }
      forall b
        ensures RefsTo(s'.refs, b) <= BlobCountOf(s'.blobs, b)
      {
        assert RefsTo(s.refs, b) <= BlobCountOf(s.blobs, b);
      }
    }
  }

  /** Reaping a page removes a record only if nothing claims the chunk. */
  lemma ReapKeepsGaps(s: IndexState, id: ChunkId, loc: Loc, bad: set<ChunkId>)
    requires SolventBut(s, bad)
    ensures KeepsGapsBut(s, s.(chunks := ReapPage(s.chunks, id, loc).chunks), bad)
    ensures ReapPage(s.chunks, id, loc).recordDeleted && id !in bad ==> Owed(s.blobs, id) == 0
  {
    var s' := s.(chunks := ReapPage(s.chunks, id, loc).chunks);
    if ReapPage(s.chunks, id, loc).recordDeleted && id !in bad {
      OwedCoversManifest(s.blobs, id, id);
      assert Gap(s, id) >= 0;
    }
    forall b
      ensures RefsTo(s'.refs, b) <= BlobCountOf(s'.blobs, b)
    {
      assert RefsTo(s.refs, b) <= BlobCountOf(s.blobs, b);
    }
  }

  /** A statistics row takes no part in the books. */
  lemma StatsKeepGaps(s: IndexState, stats: StatsTable, bad: set<ChunkId>)
    requires SolventBut(s, bad)
    ensures KeepsGapsBut(s, s.(stats := stats), bad)
  {
    var s' := s.(stats := stats);
    forall b
      ensures RefsTo(s'.refs, b) <= BlobCountOf(s'.blobs, b)
    {
      assert RefsTo(s.refs, b) <= BlobCountOf(s.blobs, b);
    }
  }

  // ---- the count of a manifest against its refs

  /** Every manifest counts exactly the refs that name it. */
  ghost predicate ExactlyBacked(s: IndexState) {
    forall b :: RefsTo(s.refs, b) == BlobCountOf(s.blobs, b)
  }

  /**
   Only `<=` is invariant: a put that rewrites a key with the content it already
   has adds a reference it never takes back, and it is the only one that does.
   */
  lemma PutKeepsExactIff(s: IndexState, ref: RefEntry, blob: BlobEntry, entries: seq<ChunkEntry>)
    requires ExactlyBacked(s) && ref.blobId == blob.blobId
    ensures ExactlyBacked(CommitPut(s, ref, blob, entries).0) <==> !SameContent(s, ref)
  {
    var s' := CommitPut(s, ref, blob, entries).0;
    var k := (ref.ns, ref.key);
    if k in s.refs {
      RefIsCounted(s, k);
    }
    forall b
      ensures RefsTo(s'.refs, b)
           == BlobCountOf(s'.blobs, b) - (if SameContent(s, ref) && b == ref.blobId then 1 else 0)
    {
      RefsToPut(s.refs, k, ref, b);
      assert RefsTo(s.refs, b) == BlobCountOf(s.blobs, b);
    }
    if SameContent(s, ref) {
      assert RefsTo(s'.refs, ref.blobId) + 1 == BlobCountOf(s'.blobs, ref.blobId);
    }
  }

  // ---- the exceptions happen

  /** Two namespaces storing different blobs that share one chunk: the second put unbalances the books. */
  lemma SharedChunkAcrossNamespaces(c: ChunkId, b1: BlobId, b2: BlobId, loc: Loc)
    requires b1 != b2
    ensures var e1 := ChunkEntry(c, "ns-a", loc, 1, 1, 0, 0, [], []);
            var e2 := e1.(ns := "ns-b");
            var s1 := CommitPut(EMPTY_INDEX, RefEntry("ns-a", "k", b1, 1, 1), BlobEntry(b1, [c], 1, 0), [e1]).0;
            var s2 := CommitPut(s1, RefEntry("ns-b", "k", b2, 1, 1), BlobEntry(b2, [c], 1, 0), [e2]).0;
            Books(s1) && !Books(s2) && Gap(s2, c) == -1
  {
    var e1 := ChunkEntry(c, "ns-a", loc, 1, 1, 0, 0, [], []);
    var e2 := e1.(ns := "ns-b");
    var r1, r2 := RefEntry("ns-a", "k", b1, 1, 1), RefEntry("ns-b", "k", b2, 1, 1);
    var m1, m2 := BlobEntry(b1, [c], 1, 0), BlobEntry(b2, [c], 1, 0);
    assert EntryIds([e1]) == [c] && EntryIds([e2]) == [c];
    PutKeepsDoubleEntryIff(EMPTY_INDEX, r1, m1, [e1]);
    var s1 := CommitPut(EMPTY_INDEX, r1, m1, [e1]).0;
    UpsertCounts("ns-a", map[], [e1], c);
    assert [e1][..0] == [];
    assert s1.chunks == map[c := e1.(refCount := 1)];
    assert Replaced(s1, r2).None?;
    PutGap(s1, r2, m2, [e2], c, {});
    assert Gap(s1, c) == 0;
  }
}
