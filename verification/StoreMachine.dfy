/**
 The store of one namespace as a machine whose steps may interleave freely.

 A step is what the code does under one lock or in one transaction: a put up to
 its commit, marking one page, deleting, renaming, and the separate scan,
 reap-transaction and mark steps of any number of phase 1 compactions. Phase 2
 holds the namespace's exclusive guard, so it excludes puts and phase 1, but a
 delete or a rename, which take no namespace guard, may fall between its steps.
 A crash may happen anywhere. It drops every operation in progress, and the store
 is opened again, which replays the log.
 */
module StoreMachine {
  import opened Base
  import opened Records
  import opened Disk
  import opened IndexSpec
  import opened ReplaySpec

  /** What an operation still has to do. */
  datatype Proc =
    | Marking(dups: seq<Loc>)
    | Sweeping(queue: seq<(ChunkId, Loc)>, verdict: Option<Loc>)
    | Exclusive
    | Relocating(oldSeg: nat, newSeg: nat, todo: seq<ChunkEntry>, got: Option<ChunkEntry>)

  datatype Store = Store(idx: IndexState, disk: Disk, wal: Wals, procs: map<nat, Proc>)

  const EMPTY_STORE := Store(EMPTY_INDEX, EMPTY_DISK, map[], map[])

  datatype Action =
    | Put(p: nat, key: Key, content: Bytes, rolls: seq<bool>)
    | RejectedPut(content: Bytes, rolls: seq<bool>)
    | AbortedPut(content: Bytes, n: nat, rolls: seq<bool>)
    | MarkDup(p: nat)
    | Delete(key: Key)
    | Rename(oldKey: Key, newKey: Key)
    | BeginSweep(p: nat)
    | Scan(p: nat, loc: Loc)
    | ReapTx(p: nat)
    | MarkPage(p: nat)
    | EndSweep(p: nat)
    | Purge(blobId: BlobId)
    | Reconcile(deadBytes: nat, deadChunks: nat)
    | BeginExclusive(p: nat)
    | Rewrite(p: nat, seg: nat)
    | Fetch(p: nat)
    | Relocate(p: nat)
    | DropSegment(p: nat)
    | EndExclusive(p: nat)
    | Crash

  /** The namespace's shared guard can be taken: no phase 2 is running. */
  predicate SharedGuard(s: Store) {
    forall p :: p in s.procs ==> s.procs[p].Marking? || s.procs[p].Sweeping?
  }

  predicate Enabled(s: Store, a: Action) {
    match a
    case Put(p, key, content, rolls) => p !in s.procs && SharedGuard(s) && key != "" && content != []
    case RejectedPut(content, rolls) => SharedGuard(s)
    case AbortedPut(content, n, rolls) => SharedGuard(s)
    case MarkDup(p) => p in s.procs && s.procs[p].Marking?
    case Delete(key) => true
    case Rename(o, n) => o != "" && n != ""
    case BeginSweep(p) => p !in s.procs && SharedGuard(s)
    case Scan(p, loc) => p in s.procs && s.procs[p].Sweeping? && loc in s.disk.pages && !s.disk.pages[loc].deleted
    case ReapTx(p) => p in s.procs && s.procs[p].Sweeping? && s.procs[p].verdict.None? && s.procs[p].queue != []
    case MarkPage(p) => p in s.procs && s.procs[p].Sweeping? && s.procs[p].verdict.Some?
    case EndSweep(p) => p in s.procs && s.procs[p].Sweeping? && s.procs[p].verdict.None?
    case Purge(id) => true
    case Reconcile(bytes, count) => true
    case BeginExclusive(p) => s.procs == map[]
    case Rewrite(p, seg) =>
      p in s.procs && s.procs[p].Exclusive? && seg in s.disk.ends && s.disk.active != Some(seg)
    case Fetch(p) =>
      p in s.procs && s.procs[p].Relocating? && s.procs[p].got.None? && s.procs[p].todo != []
    case Relocate(p) => p in s.procs && s.procs[p].Relocating? && s.procs[p].got.Some? && s.procs[p].todo != []
    case DropSegment(p) => p in s.procs && s.procs[p].Relocating? && s.procs[p].todo == []
    case EndExclusive(p) => p in s.procs && s.procs[p].Exclusive?
    case Crash => true
  }

  // ---- Put

  /** The ref and the manifest Put hands to CommitPut. */
  function RefFor(cfg: Config, key: Key, content: Bytes, entries: seq<ChunkEntry>): RefEntry {
    RefEntry(cfg.ns, key, Sha256(content), |content|, |entries|)
  }

  function BlobFor(content: Bytes, entries: seq<ChunkEntry>): BlobEntry {
    BlobEntry(Sha256(content), EntryIds(entries), |content|, 0)
  }

  function Locs(entries: seq<ChunkEntry>): (r: seq<Loc>)
    ensures |r| == |entries| && forall i :: 0 <= i < |r| ==> r[i] == entries[i].loc
  {
    seq(|entries|, i requires 0 <= i < |entries| => entries[i].loc)
  }

  /** appendWAL: one entry, in the log of the segment that is active when the last page has been written. */
  function LogBlob(wal: Wals, d: Disk, content: Bytes, entries: seq<ChunkEntry>): Wals {
    if entries == [] || d.active.None? then wal else AppendLog(wal, d.active.value, Logged(Sha256(content), entries))
  }

  /** WriteBlob and CommitPut; the duplicates the commit reports are left to be marked one by one. */
  function PutStep(cfg: Config, s: Store, p: nat, key: Key, content: Bytes, rolls: seq<bool>): Store
    requires cfg.capacity >= 1
  {
    var (disk, entries) := WritePieces(cfg, s.disk, cfg.split(content), rolls);
    var (idx, reused) := CommitPut(s.idx, RefFor(cfg, key, content, entries), BlobFor(content, entries), entries);
    Store(idx, disk, LogBlob(s.wal, disk, content, entries), s.procs[p := Marking(Locs(reused))])
  }

  /** WriteBlob without a commit: the quota refuses the put, or the process dies before committing it. */
  function RejectedPutStep(cfg: Config, s: Store, content: Bytes, rolls: seq<bool>): Store
    requires cfg.capacity >= 1
  {
    var (disk, entries) := WritePieces(cfg, s.disk, cfg.split(content), rolls);
    s.(disk := disk, wal := LogBlob(s.wal, disk, content, entries))
  }

  /** The first `n` pieces of a put that stops before its log entry: its reader fails, or the process dies. */
  function AbortedPutStep(cfg: Config, s: Store, content: Bytes, n: nat, rolls: seq<bool>): Store
    requires cfg.capacity >= 1
  {
    var pieces := cfg.split(content);
    s.(disk := WritePieces(cfg, s.disk, if n < |pieces| then pieces[..n] else pieces, rolls).0)
  }

  function Flag(s: Store, loc: Loc): Store {
    s.(disk := s.disk.(pages := MarkDeleted(s.disk.pages, loc)))
  }

  function MarkDupStep(s: Store, p: nat): Store
    requires Enabled(s, MarkDup(p))
  {
    var dups := s.procs[p].dups;
    if dups == [] then
      s.(procs := s.procs - {p})
    else
      Flag(s, dups[0]).(procs := s.procs[p := Marking(dups[1..])])
  }

  // ---- phase 1

  /** The scan queues a page it read unflagged; the cached index lookup may let any such page through. */
  function ScanStep(s: Store, p: nat, loc: Loc): Store
    requires Enabled(s, Scan(p, loc))
  {
    var proc := s.procs[p];
    s.(procs := s.procs[p := proc.(queue := proc.queue + [(s.disk.pages[loc].id, loc)])])
  }

  function ReapStep(s: Store, p: nat): Store
    requires Enabled(s, ReapTx(p))
  {
    var proc := s.procs[p];
    var (id, loc) := proc.queue[0];
    var r := ReapPage(s.idx.chunks, id, loc);
    s.(idx := s.idx.(chunks := r.chunks),
       procs := s.procs[p := Sweeping(proc.queue[1..], if r.safe then Some(loc) else None)])
  }

  function MarkPageStep(s: Store, p: nat): Store
    requires Enabled(s, MarkPage(p))
  {
    var proc := s.procs[p];
    Flag(s, proc.verdict.value).(procs := s.procs[p := proc.(verdict := None)])
  }

  // ---- phase 2

  predicate Live(pages: Pages, l: Loc) {
    l in pages && !pages[l].deleted
  }

  /** The unflagged pages of a segment among its first `n`, in order. */
  function LivePages(pages: Pages, seg: nat, n: nat): (live: seq<nat>)
    ensures forall i :: 0 <= i < |live| ==> live[i] < n && Loc(seg, live[i]) in pages && !pages[Loc(seg, live[i])].deleted
    ensures forall o :: 0 <= o < n && Live(pages, Loc(seg, o)) ==> o in live
  {
    if n == 0 then
      []
    else
      var rest := LivePages(pages, seg, n - 1);
      if Live(pages, Loc(seg, n - 1)) then rest + [n - 1] else rest
  }

  /** The copies in the new segment, and the entries RewriteSegment returns: header fields only. */
  function Copied(pages: Pages, seg: nat, newSeg: nat, live: seq<nat>): (r: Pages)
    requires forall i :: 0 <= i < |live| ==> Loc(seg, live[i]) in pages
    ensures r.Keys == Span(Loc(newSeg, 0), |live|)
  {
    map l | l in Span(Loc(newSeg, 0), |live|) :: pages[Loc(seg, live[l.off])]
  }

  function CopiedEntry(cfg: Config, page: Page, at: Loc): ChunkEntry {
    ChunkEntry(page.id, cfg.ns, at, 1, |page.data|, page.seqNo, 0, [], [])
  }

  function CopiedEntries(cfg: Config, pages: Pages, seg: nat, newSeg: nat, live: seq<nat>): (r: seq<ChunkEntry>)
    requires forall i :: 0 <= i < |live| ==> Loc(seg, live[i]) in pages
    ensures |r| == |live|
    ensures forall i :: 0 <= i < |r| ==> r[i] == CopiedEntry(cfg, pages[Loc(seg, live[i])], Loc(newSeg, i))
  {
    seq(|live|, i requires 0 <= i < |live| => CopiedEntry(cfg, pages[Loc(seg, live[i])], Loc(newSeg, i)))
  }

  lemma CopiedSnoc(pages: Pages, seg: nat, newSeg: nat, live: seq<nat>, off: nat)
    requires forall i :: 0 <= i < |live| ==> Loc(seg, live[i]) in pages
    requires Loc(seg, off) in pages
    ensures Copied(pages, seg, newSeg, live + [off])
         == Copied(pages, seg, newSeg, live)[Loc(newSeg, |live|) := pages[Loc(seg, off)]]
  {
    var a := Copied(pages, seg, newSeg, live + [off]);
    var b := Copied(pages, seg, newSeg, live)[Loc(newSeg, |live|) := pages[Loc(seg, off)]];
    assert a.Keys == b.Keys;
    forall l | l in a
      ensures a[l] == b[l]
    {
      assert l.seg == newSeg && l.off <= |live|;
      if l.off < |live| {
        assert (live + [off])[l.off] == live[l.off];
      }
    }
  }

  lemma CopiedEntriesSnoc(cfg: Config, pages: Pages, seg: nat, newSeg: nat, live: seq<nat>, off: nat)
    requires forall i :: 0 <= i < |live| ==> Loc(seg, live[i]) in pages
    requires Loc(seg, off) in pages
    ensures CopiedEntries(cfg, pages, seg, newSeg, live + [off])
         == CopiedEntries(cfg, pages, seg, newSeg, live)
            + [CopiedEntry(cfg, pages[Loc(seg, off)], Loc(newSeg, |live|))]
  {
    var more := live + [off];
    assert forall i :: 0 <= i < |live| ==> more[i] == live[i];
    assert more[|live|] == off;
  }

  /** The state of the copying loop before page `off`. */
  predicate Copying(cfg: Config, pages: Pages, seg: nat, newSeg: nat, off: nat,
                    live: seq<nat>, copies: Pages, relocated: seq<ChunkEntry>) {
    && live == LivePages(pages, seg, off)
    && copies == Copied(pages, seg, newSeg, live)
    && relocated == CopiedEntries(cfg, pages, seg, newSeg, live)
  }

  lemma CopyingStep(cfg: Config, pages: Pages, seg: nat, newSeg: nat, off: nat,
                    live: seq<nat>, copies: Pages, relocated: seq<ChunkEntry>)
    requires Copying(cfg, pages, seg, newSeg, off, live, copies, relocated)
    ensures var l, at := Loc(seg, off), Loc(newSeg, |live|);
            if l in pages && !pages[l].deleted then
              Copying(cfg, pages, seg, newSeg, off + 1, live + [off], copies[at := pages[l]],
                      relocated + [CopiedEntry(cfg, pages[l], at)])
            else
              Copying(cfg, pages, seg, newSeg, off + 1, live, copies, relocated)
  {
    if Loc(seg, off) in pages {
      CopiedSnoc(pages, seg, newSeg, live, off);
      CopiedEntriesSnoc(cfg, pages, seg, newSeg, live, off);
    }
  }

  /** RewriteSegment: every unflagged page copied verbatim into a new segment, and the new locations. */
  function RewrittenDisk(d: Disk, seg: nat): Disk
    requires seg in d.ends
  {
    var live := LivePages(d.pages, seg, d.ends[seg]);
    d.(pages := d.pages + Copied(d.pages, seg, d.nextSeg, live),
       ends := d.ends[d.nextSeg := |live|],
       nextSeg := d.nextSeg + 1)
  }

  function RewrittenEntries(cfg: Config, d: Disk, seg: nat): seq<ChunkEntry>
    requires seg in d.ends
  {
    CopiedEntries(cfg, d.pages, seg, d.nextSeg, LivePages(d.pages, seg, d.ends[seg]))
  }

  /** The index is not touched by the copying. */
  function RewriteStep(cfg: Config, s: Store, p: nat, seg: nat): Store
    requires Enabled(s, Rewrite(p, seg))
  {
    s.(disk := RewrittenDisk(s.disk, seg),
       procs := s.procs[p := Relocating(seg, s.disk.nextSeg, RewrittenEntries(cfg, s.disk, seg), None)])
  }

  /** GetChunk of the entry about to be relocated; a missing record aborts phase 2. */
  function FetchStep(s: Store, p: nat): Store
    requires Enabled(s, Fetch(p))
  {
    var proc := s.procs[p];
    var id := proc.todo[0].chunkId;
    if id in s.idx.chunks then
      s.(procs := s.procs[p := proc.(got := Some(s.idx.chunks[id]))])
    else
      s.(procs := s.procs - {p})
  }

  /** The relocated record: new location, everything only the index knows from the fetched record. */
  function Carried(entry: ChunkEntry, got: ChunkEntry): ChunkEntry {
    entry.(refCount := got.refCount, nonce := got.nonce, tag := got.tag)
  }

  /** PutChunk of the relocated record, in a transaction of its own. */
  function RelocateStep(s: Store, p: nat): Store
    requires Enabled(s, Relocate(p))
  {
    var proc := s.procs[p];
    var entry := proc.todo[0];
    s.(idx := s.idx.(chunks := s.idx.chunks[entry.chunkId := Carried(entry, proc.got.value)]),
       procs := s.procs[p := proc.(todo := proc.todo[1..], got := None)])
  }

  function WithoutSegment(d: Disk, seg: nat): Disk {
    d.(pages := map l | l in d.pages && l.seg != seg :: d.pages[l], ends := d.ends - {seg})
  }

  function DropSegmentStep(s: Store, p: nat): Store
    requires Enabled(s, DropSegment(p))
  {
    var seg := s.procs[p].oldSeg;
    s.(disk := WithoutSegment(s.disk, seg), wal := s.wal - {seg}, procs := s.procs[p := Exclusive])
  }

  // ---- crash and reopening

  /** highestSegSeq: the largest id among the segment files, 0 if there is none. */
  function HighestSeg(ends: map<nat, nat>, below: nat): nat {
    if below == 0 then 0 else if below - 1 in ends then below - 1 else HighestSeg(ends, below - 1)
  }

  /** Open: the highest segment becomes the active one, and ids go on from there. */
  function Reopen(d: Disk): Disk {
    var top := HighestSeg(d.ends, d.nextSeg);
    if top > 0 then d.(active := Some(top), nextSeg := top + 1) else d.(active := None, nextSeg := 1)
  }

  /** What replay reads: the logs of the segments that are there. */
  function Log(s: Store): seq<Logged> {
    WholeLog(s.disk.ends.Keys, s.wal, s.disk.nextSeg)
  }

  /** openEngine after a crash or a close: the segments are found again and the log is replayed. */
  function CrashStep(s: Store): Store {
    Store(ReplayAll(s.idx, Log(s)), Reopen(s.disk), s.wal, map[])
  }

  // ---- the machine

  function Step(cfg: Config, s: Store, a: Action): Store
    requires cfg.capacity >= 1 && Enabled(s, a)
  {
    match a
    case Put(p, key, content, rolls) => PutStep(cfg, s, p, key, content, rolls)
    case RejectedPut(content, rolls) => RejectedPutStep(cfg, s, content, rolls)
    case AbortedPut(content, n, rolls) => AbortedPutStep(cfg, s, content, n, rolls)
    case MarkDup(p) => MarkDupStep(s, p)
    case Delete(key) =>
      var r := CommitDelete(s.idx, cfg.ns, key);
      if r.Ok? then s.(idx := r.value) else s
    case Rename(o, n) =>
      var r := CommitRenameRef(s.idx, cfg.ns, o, n);
      if r.Ok? then s.(idx := r.value) else s
    case BeginSweep(p) => s.(procs := s.procs[p := Sweeping([], None)])
    case Scan(p, loc) => ScanStep(s, p, loc)
    case ReapTx(p) => ReapStep(s, p)
    case MarkPage(p) => MarkPageStep(s, p)
    case EndSweep(p) => s.(procs := s.procs - {p})
    case Purge(id) => s.(idx := PurgeBlob(s.idx, id))
    case Reconcile(bytes, count) =>
      s.(idx := s.idx.(stats := ReconcileDeadStats(s.idx.stats, cfg.ns, bytes, count)))
    case BeginExclusive(p) => s.(procs := map[p := Exclusive])
    case Rewrite(p, seg) => RewriteStep(cfg, s, p, seg)
    case Fetch(p) => FetchStep(s, p)
    case Relocate(p) => RelocateStep(s, p)
    case DropSegment(p) => DropSegmentStep(s, p)
    case EndExclusive(p) => s.(procs := map[])
    case Crash => CrashStep(s)
  }

  /** A run from the empty store in which every action is enabled when it is taken. */
  predicate Runs(cfg: Config, actions: seq<Action>)
    requires cfg.capacity >= 1
    decreases |actions|, 0
  {
    actions == [] ||
    (var init := actions[..|actions| - 1];
     Runs(cfg, init) && Enabled(After(cfg, init), actions[|actions| - 1]))
  }

  function After(cfg: Config, actions: seq<Action>): Store
    requires cfg.capacity >= 1 && Runs(cfg, actions)
    decreases |actions|, 1
  {
    if actions == [] then
      EMPTY_STORE
    else
      Step(cfg, After(cfg, actions[..|actions| - 1]), actions[|actions| - 1])
  }

  // ---- reading a key

  datatype GetError = NoSuchKey | NoManifest | NoRecord | Read(error: ReadError)

  /** Resolving and reading the chunks of a manifest, in order. */
  function ReadAll(cfg: Config, s: Store, ids: seq<ChunkId>): Result<Bytes, GetError> {
    if ids == [] then
      Ok([])
    else if ids[0] !in s.idx.chunks then
      Err(NoRecord)
    else
      match ReadChunk(cfg, s.disk.pages, s.idx.chunks[ids[0]])
      case Err(e) => Err(Read(e))
      case Ok(data) =>
        var rest := ReadAll(cfg, s, ids[1..]);
        if rest.Err? then rest else Ok(data + rest.value)
  }

  /** Get followed by reading the returned reader to its end. */
  function Get(cfg: Config, s: Store, key: Key): Result<Bytes, GetError> {
    if (cfg.ns, key) !in s.idx.refs then
      Err(NoSuchKey)
    else
      var id := s.idx.refs[(cfg.ns, key)].blobId;
      if id !in s.idx.blobs then Err(NoManifest) else ReadAll(cfg, s, s.idx.blobs[id].chunkIds)
  }
}
