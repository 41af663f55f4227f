/** Everything that holds in each reachable index state, over runs of transactions. */
module IndexRuns {
  import opened Base
  import opened Records
  import opened IndexSpec
  import opened DoubleEntry
  import opened Ledger

  datatype Op =
    | Put(ref: RefEntry, blob: BlobEntry, entries: seq<ChunkEntry>)
    | Delete(key: Key)
    | Rename(oldKey: Key, newKey: Key)
    | Purge(blobId: BlobId)
    | Reap(chunkId: ChunkId, loc: Loc)
    | Reconcile(deadBytes: nat, deadChunks: nat)

  /** One transaction; a failing one rolls back. */
  function Apply(ns: NsId, s: IndexState, op: Op): IndexState {
    match op
    case Put(ref, blob, entries) => CommitPut(s, ref, blob, entries).0
    case Delete(key) => var r := CommitDelete(s, ns, key); if r.Ok? then r.value else s
    case Rename(o, n) => var r := CommitRenameRef(s, ns, o, n); if r.Ok? then r.value else s
    case Purge(id) => PurgeBlob(s, id)
    case Reap(id, loc) => s.(chunks := ReapPage(s.chunks, id, loc).chunks)
    case Reconcile(bytes, count) => s.(stats := ReconcileDeadStats(s.stats, ns, bytes, count))
  }

  function Run(ns: NsId, s: IndexState, ops: seq<Op>): IndexState
    decreases |ops|
  {
    if ops == [] then s else Apply(ns, Run(ns, s, ops[..|ops| - 1]), ops[|ops| - 1])
  }

  /** The fixed chunker: one chunk list for each content. */
  type Chunker = BlobId -> seq<ChunkId>

  /** The arguments of a put in namespace `ns` whose blob was cut up by `chunker`. */
  predicate FromChunker(ns: NsId, chunker: Chunker, ref: RefEntry, blob: BlobEntry, entries: seq<ChunkEntry>) {
    && PutArguments(ref, blob, entries)
    && ref.ns == ns
    && blob.chunkIds == chunker(blob.blobId)
    && ref.size == blob.totalSize == |ref.blobId.content|
    && ref.chunkCount == |entries|
    && (forall e :: e in entries ==> e.length > 0)
  }

  predicate Valid(ns: NsId, chunker: Chunker, op: Op) {
    op.Put? ==> FromChunker(ns, chunker, op.ref, op.blob, op.entries)
  }

  /** Manifests and refs have the shape the chunker gives their content. */
  predicate Shaped(s: IndexState, chunker: Chunker) {
    && (forall b :: b in s.blobs ==> s.blobs[b].chunkIds == chunker(b))
    && (forall k :: k in s.refs ==>
          s.refs[k].size == |s.refs[k].blobId.content| && s.refs[k].chunkCount == |chunker(s.refs[k].blobId)|)
  }

  ghost predicate Inv(s: IndexState, ns: NsId, chunker: Chunker) {
    Books(s) && RefsAgree(s) && LiveLedger(s) && OneNamespace(s.chunks, ns) && Shaped(s, chunker)
  }

  lemma EmptyInv(ns: NsId, chunker: Chunker)
    ensures Inv(EMPTY_INDEX, ns, chunker) && DeadLedger(EMPTY_INDEX, ns)
  {
  }

  lemma PutKeepsShape(s: IndexState, ns: NsId, chunker: Chunker, ref: RefEntry, blob: BlobEntry, entries: seq<ChunkEntry>)
    requires Shaped(s, chunker) && FromChunker(ns, chunker, ref, blob, entries)
    ensures Shaped(CommitPut(s, ref, blob, entries).0, chunker)
  {
    var s' := CommitPut(s, ref, blob, entries).0;
    forall b | b in s'.blobs
      ensures s'.blobs[b].chunkIds == chunker(b)
    {
      assert b in AddBlob(s.blobs, blob) && AddBlob(s.blobs, blob)[b].chunkIds == chunker(b);
    }
  }

  lemma PutKeepsInv(s: IndexState, ns: NsId, chunker: Chunker, ref: RefEntry, blob: BlobEntry, entries: seq<ChunkEntry>)
    requires Inv(s, ns, chunker) && FromChunker(ns, chunker, ref, blob, entries)
    ensures Inv(CommitPut(s, ref, blob, entries).0, ns, chunker)
  {
    PutBeforeUpsert(s, ref, blob, {});
    PutKeepsDoubleEntryIff(s, ref, blob, entries);
    PutKeepsLiveLedger(s, ref, blob, entries);
    PutKeepsShape(s, ns, chunker, ref, blob, entries);
    PutOneNamespace(s, ref, blob, entries);
  }

  lemma PutOneNamespace(s: IndexState, ref: RefEntry, blob: BlobEntry, entries: seq<ChunkEntry>)
    requires OneNamespace(s.chunks, ref.ns) && forall e :: e in entries ==> e.ns == ref.ns && e.length > 0
    ensures OneNamespace(CommitPut(s, ref, blob, entries).0.chunks, ref.ns)
  {
    var added := AddBlob(s.blobs, blob);
    var prev := Replaced(s, ref);
    if prev.Some? && prev.value.blobId in added {
      DecChunksDead(s.chunks, added[prev.value.blobId].chunkIds, ref.ns);
    }
    UpsertDead(ref.ns, ReleaseReplaced(s, ref, blob).dec.chunks, entries);
  }

  lemma DeleteKeepsInv(s: IndexState, ns: NsId, chunker: Chunker, key: Key)
    requires Inv(s, ns, chunker)
    ensures Inv(Apply(ns, s, Delete(key)), ns, chunker)
  {
    DeleteKeepsGaps(s, ns, key, {});
    if (ns, key) in s.refs {
      DeleteKeepsLiveLedger(s, ns, key);
      RefIsCounted(s, (ns, key));
      DecChunksDead(s.chunks, s.blobs[s.refs[(ns, key)].blobId].chunkIds, ns);
    }
  }

  lemma RenameKeepsInv(s: IndexState, ns: NsId, chunker: Chunker, o: Key, n: Key)
    requires Inv(s, ns, chunker)
    ensures Inv(Apply(ns, s, Rename(o, n)), ns, chunker)
  {
    RenameKeepsGaps(s, ns, o, n, {});
    if CommitRenameRef(s, ns, o, n).Ok? {
      RenameKeepsLiveLedger(s, ns, o, n);
    }
  }

  lemma ApplyKeepsInv(s: IndexState, ns: NsId, chunker: Chunker, op: Op)
    requires Inv(s, ns, chunker) && Valid(ns, chunker, op)
    ensures Inv(Apply(ns, s, op), ns, chunker)
  {
    match op
    case Put(ref, blob, entries) =>
      PutKeepsInv(s, ns, chunker, ref, blob, entries);
    case Delete(key) =>
      DeleteKeepsInv(s, ns, chunker, key);
    case Rename(o, n) =>
      RenameKeepsInv(s, ns, chunker, o, n);
    case Purge(id) =>
      PurgeKeepsGaps(s, id, {});
    case Reap(id, loc) =>
      ReapKeepsGaps(s, id, loc, {});
    case Reconcile(bytes, count) =>
      StatsKeepGaps(s, ReconcileDeadStats(s.stats, ns, bytes, count), {});
  }

  /**
   Double entry in every reachable state of one namespace: counts equal claims,
   manifests cover their refs, no referenced blob misses a chunk, and the live
   counters are the sums over the refs.
   */
  lemma {:induction false} ReachableBooks(ns: NsId, chunker: Chunker, ops: seq<Op>)
    requires forall op :: op in ops ==> Valid(ns, chunker, op)
    ensures Inv(Run(ns, EMPTY_INDEX, ops), ns, chunker)
    decreases |ops|
  {
    if ops == [] {
      EmptyInv(ns, chunker);
    } else {
      var init, last := ops[..|ops| - 1], ops[|ops| - 1];
      assert last in ops && forall op :: op in init ==> op in ops;
      ReachableBooks(ns, chunker, init);
      ApplyKeepsInv(Run(ns, EMPTY_INDEX, init), ns, chunker, last);
    }
  }

  /** Between compactions the dead counters are exact in every reachable state. */
  lemma {:induction false} ReachableDeadLedger(ns: NsId, chunker: Chunker, start: IndexState, ops: seq<Op>)
    requires Inv(start, ns, chunker) && DeadLedger(start, ns)
    requires forall op :: op in ops ==> Valid(ns, chunker, op) && !op.Reap? && !op.Reconcile?
    ensures Inv(Run(ns, start, ops), ns, chunker) && DeadLedger(Run(ns, start, ops), ns)
    decreases |ops|
  {
    if ops != [] {
      var init, last := ops[..|ops| - 1], ops[|ops| - 1];
      assert last in ops && forall op :: op in init ==> op in ops;
      ReachableDeadLedger(ns, chunker, start, init);
      var s := Run(ns, start, init);
      ApplyKeepsInv(s, ns, chunker, last);
      match last
      case Put(ref, blob, entries) => PutKeepsDeadLedger(s, ref, blob, entries);
      case Delete(key) => if (ns, key) in s.refs { DeleteKeepsDeadLedger(s, ns, key); }
      case Rename(o, n) =>
      case Purge(id) =>
    }
  }
}
