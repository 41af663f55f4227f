/**
 Everything the index of one namespace keeps account of, between operations:
 reference counts against claims, and the statistics against the tables.
 */
module Bookkeeping {
  import opened Base
  import opened Records
  import opened Disk
  import opened DoubleEntry
  import opened Ledger
  import opened StoreInvariant
  import opened SweepLedger
  import Spec = IndexSpec
  import Machine = StoreMachine
  import Steps = StoreSteps

  /** Refs record the size and chunk count their content has under the chunker. */
  predicate RefsShaped(cfg: Config, refs: RefTable) {
    forall k :: k in refs ==>
      refs[k].size == |refs[k].blobId.content| && refs[k].chunkCount == |cfg.split(refs[k].blobId.content)|
  }

  /** Counts, claims and statistics all agree. */
  ghost predicate Accounts(cfg: Config, s: IndexState) {
    && Books(s)
    && RefsAgree(s) && RefsShaped(cfg, s.refs)
    && OneNamespace(s.chunks, cfg.ns)
    && LiveLedger(s) && DeadLedger(s, cfg.ns)
  }

  lemma KeepBooks(s: IndexState, s': IndexState)
    requires Books(s) && KeepsGaps(s, s')
    ensures Books(s') && Solvent(s')
  {
    assert forall c :: Gap(s', c) == Gap(s, c);
  }

  lemma PutAccounts(cfg: Config, before: Machine.Store, key: Key, content: Bytes, rolls: seq<bool>)
    requires ValidConfig(cfg) && Core(cfg, before.idx, before.disk) && Accounts(cfg, before.idx)
    ensures var entries := WritePieces(cfg, before.disk, cfg.split(content), rolls).1;
            var ref, blob := Machine.RefFor(cfg, key, content, entries), Machine.BlobFor(content, entries);
            Accounts(cfg, Spec.CommitPut(before.idx, ref, blob, entries).0)
  {
    var pieces := cfg.split(content);
    var w := WritePieces(cfg, before.disk, pieces, rolls);
    WritePiecesHolds(cfg, before.disk, pieces, rolls);
    Steps.EntryIdsArePieceIds(cfg, before.disk, w.0, pieces, w.1);
    PutAccountsFor(cfg, before.idx, key, content, w.1);
  }

  lemma PutAccountsFor(cfg: Config, s: IndexState, key: Key, content: Bytes, entries: seq<ChunkEntry>)
    requires ValidConfig(cfg) && Accounts(cfg, s) && ManifestsFixed(cfg, s.blobs)
    requires Spec.EntryIds(entries) == PieceIds(cfg.split(content))
    requires forall e :: e in entries ==> e.ns == cfg.ns && e.length == |e.chunkId.content|
    ensures var ref, blob := Machine.RefFor(cfg, key, content, entries), Machine.BlobFor(content, entries);
            Accounts(cfg, Spec.CommitPut(s, ref, blob, entries).0)
  {
    var ref, blob := Machine.RefFor(cfg, key, content, entries), Machine.BlobFor(content, entries);
    EntriesNonempty(cfg, content, entries);
    Steps.PutIndex(cfg, s, key, content, entries, {});
    KeepBooks(s, Spec.CommitPut(s, ref, blob, entries).0);
    assert |entries| == |Spec.EntryIds(entries)| == |cfg.split(content)|;
    PutKeepsLiveLedger(s, ref, blob, entries);
    PutKeepsDeadLedger(s, ref, blob, entries);
    RefsStayShaped(cfg, s.refs, ref);
  }

  lemma RefsStayShaped(cfg: Config, refs: RefTable, ref: RefEntry)
    requires RefsShaped(cfg, refs)
    requires ref.size == |ref.blobId.content| && ref.chunkCount == |cfg.split(ref.blobId.content)|
    ensures RefsShaped(cfg, refs[(ref.ns, ref.key) := ref])
  {
  }

  lemma EntriesNonempty(cfg: Config, content: Bytes, entries: seq<ChunkEntry>)
    requires ValidConfig(cfg) && Spec.EntryIds(entries) == PieceIds(cfg.split(content))
    requires forall e :: e in entries ==> e.length == |e.chunkId.content|
    ensures forall e :: e in entries ==> e.length > 0
  {
    forall e | e in entries
      ensures e.length > 0
    {
      var i :| 0 <= i < |entries| && entries[i] == e;
      assert Spec.EntryIds(entries)[i] == PieceIds(cfg.split(content))[i];
    }
  }

  lemma DeleteAccounts(cfg: Config, s: IndexState, d: Disk, key: Key)
    requires cfg.capacity >= 1 && Core(cfg, s, d) && Accounts(cfg, s) && (cfg.ns, key) in s.refs
    ensures var s' := Spec.CommitDelete(s, cfg.ns, key).value; Core(cfg, s', d) && Accounts(cfg, s')
  {
    var s' := Spec.CommitDelete(s, cfg.ns, key).value;
    DeleteKeepsGaps(s, cfg.ns, key, {});
    KeepBooks(s, s');
    SameRecordsHold(cfg, d.pages, s.chunks, s'.chunks, IN_ORDER);
    DeleteKeepsLiveLedger(s, cfg.ns, key);
    DeleteKeepsDeadLedger(s, cfg.ns, key);
  }

  lemma RenameAccounts(cfg: Config, s: IndexState, oldKey: Key, newKey: Key)
    requires Accounts(cfg, s) && Spec.CommitRenameRef(s, cfg.ns, oldKey, newKey).Ok?
    ensures Accounts(cfg, Spec.CommitRenameRef(s, cfg.ns, oldKey, newKey).value)
  {
    RenameKeepsGaps(s, cfg.ns, oldKey, newKey, {});
    KeepBooks(s, Spec.CommitRenameRef(s, cfg.ns, oldKey, newKey).value);
    RenameKeepsLiveLedger(s, cfg.ns, oldKey, newKey);
  }

  lemma SweepAccounts(cfg: Config, s: IndexState, d: Disk)
    requires cfg.capacity >= 1 && Core(cfg, s, d) && Accounts(cfg, s)
    ensures Accounts(cfg, Swept(cfg, s, d.pages))
  {
    var s' := Swept(cfg, s, d.pages);
    SweepGaps(cfg, s, d.pages);
    KeepBooks(s, s');
    SweepClearsDead(cfg, s, d.pages);
    forall ns
      ensures var st := StatsOf(s'.stats, ns);
              && st.blobCount == MapSum(s'.refs, OneRef(ns))
              && st.bytesStored == MapSum(s'.refs, RefSize(ns))
              && st.chunkCount == MapSum(s'.refs, RefChunks(ns))
    {
      assert StatsOf(s.stats, ns).blobCount == MapSum(s.refs, OneRef(ns));
    }
  }
}
