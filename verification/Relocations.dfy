/**
 Compaction phase 2 by itself: copying the live pages of a sealed segment,
 committing the new locations one record at a time, dropping the old segment.
 */
module Relocations {
  import opened Base
  import opened Records
  import opened Disk
  import opened DoubleEntry
  import opened Ledger
  import opened IndexStore
  import opened StoreInvariant
  import opened Bookkeeping
  import opened RelocationSteps
  import opened RelocationLoop
  import Machine = StoreMachine
  import Steps = StoreSteps

  /** Pages of a segment among its first `n`: how many there are, and how many are flagged. */
  function TotalPages(pages: Pages, seg: nat, n: nat): nat {
    if n == 0 then 0 else TotalPages(pages, seg, n - 1) + (if Loc(seg, n - 1) in pages then 1 else 0)
  }

  function DeadPages(pages: Pages, seg: nat, n: nat): (dead: nat)
    ensures dead <= TotalPages(pages, seg, n)
  {
    if n == 0 then 0
    else DeadPages(pages, seg, n - 1)
         + (if Loc(seg, n - 1) in pages && pages[Loc(seg, n - 1)].deleted then 1 else 0)
  }

  datatype SegmentStat = SegmentStat(seg: nat, totalPages: nat, deadPages: nat) {
    function DeadRatio(): real {
      if totalPages == 0 then 0.0 else deadPages as real / totalPages as real
    }
  }

  function StatOf(d: Disk, seg: nat): SegmentStat
    requires seg in d.ends
  {
    SegmentStat(seg, TotalPages(d.pages, seg, d.ends[seg]), DeadPages(d.pages, seg, d.ends[seg]))
  }

  /** Sealed, not empty, and dead enough to be rewritten. */
  predicate Selected(d: Disk, seg: nat, threshold: real) {
    && seg in d.ends && d.active != Some(seg)
    && StatOf(d, seg).totalPages > 0 && StatOf(d, seg).DeadRatio() >= threshold
  }

  /** The rewrite of a segment that nothing else is touching. */
  lemma LoneRewrite(cfg: Config, idx: IndexState, d: Disk, seg: nat)
    requires cfg.capacity >= 1 && Core(cfg, idx, d) && WholePages(cfg, d.pages)
    requires seg in d.ends && d.active != Some(seg)
    ensures Inv(cfg, Relocation(idx, Machine.RewrittenDisk(d, seg), seg, d.nextSeg, Machine.RewrittenEntries(cfg, d, seg)), IN_ORDER)
  {
    var s := Machine.Store(idx, d, map[], map[0 := Machine.Exclusive]);
    assert s.procs.Keys == {0};
    Steps.RewriteKeeps(cfg, s, 0, seg, IN_ORDER);
    LoneShape(cfg, idx, d, seg);
  }

  lemma LoneShape(cfg: Config, idx: IndexState, d: Disk, seg: nat)
    requires seg in d.ends && d.active != Some(seg)
    ensures Machine.RewriteStep(cfg, Machine.Store(idx, d, map[], map[0 := Machine.Exclusive]), 0, seg)
         == Relocation(idx, Machine.RewrittenDisk(d, seg), seg, d.nextSeg, Machine.RewrittenEntries(cfg, d, seg))
  {
    var proc := Machine.Relocating(seg, d.nextSeg, Machine.RewrittenEntries(cfg, d, seg), None);
    assert map[0 := Machine.Exclusive][0 := proc] == map[0 := proc];
  }

  /** Every unflagged page of the segment belongs to a chunk with a record. */
  predicate Covered(pages: Pages, seg: nat, known: set<ChunkId>) {
    forall l :: l in pages && l.seg == seg && !pages[l].deleted ==> pages[l].id in known
  }

  /** Which is what the relocation of the segment needs to find for each entry. */
  lemma CoveredIff(cfg: Config, d: Disk, seg: nat, known: set<ChunkId>)
    requires ValidDisk(d) && seg in d.ends
    ensures Covered(d.pages, seg, known)
       <==> var todo := Machine.RewrittenEntries(cfg, d, seg); forall i :: 0 <= i < |todo| ==> todo[i].chunkId in known
  {
    var live := Machine.LivePages(d.pages, seg, d.ends[seg]);
    var todo := Machine.RewrittenEntries(cfg, d, seg);
    if forall i :: 0 <= i < |todo| ==> todo[i].chunkId in known {
      forall l | l in d.pages && l.seg == seg && !d.pages[l].deleted
        ensures d.pages[l].id in known
      {
        assert Machine.Live(d.pages, Loc(seg, l.off)) && l == Loc(seg, l.off);
        var i :| 0 <= i < |live| && live[i] == l.off;
        assert todo[i].chunkId == d.pages[l].id;
      }
    }
  }

  /** What rewriting segment `seg` does to the segment files. */
  ghost predicate Replaces(d: Disk, d': Disk, seg: nat, dropped: bool) {
    && d'.active == d.active && d'.nextSeg == d.nextSeg + 1
    && d'.ends.Keys == d.ends.Keys + {d.nextSeg} - (if dropped then {seg} else {})
    && (forall l: Loc :: l.seg < d.nextSeg && (dropped ==> l.seg != seg) ==> SameAt(d.pages, d'.pages, l))
  }

  predicate SameAt(a: Pages, b: Pages, l: Loc) {
    (l in a <==> l in b) && (l in a ==> a[l] == b[l])
  }

  lemma DropReplaces(d: Disk, seg: nat, dropped: bool)
    requires seg in d.ends && seg < d.nextSeg
    ensures var rewritten := Machine.RewrittenDisk(d, seg);
            Replaces(d, if dropped then Machine.WithoutSegment(rewritten, seg) else rewritten, seg, dropped)
  {
  }

  /** After the relocations the old segment can go. */
  lemma LoneDrop(cfg: Config, idx: IndexState, rewritten: Disk, seg: nat, newSeg: nat)
    requires cfg.capacity >= 1 && Inv(cfg, Relocation(idx, rewritten, seg, newSeg, []), IN_ORDER)
    ensures var d' := Machine.WithoutSegment(rewritten, seg); Core(cfg, idx, d') && WholePages(cfg, d'.pages)
  {
    Steps.DropSegmentKeeps(cfg, Relocation(idx, rewritten, seg, newSeg, []), 0, IN_ORDER);
  }

  /** The first `i` segments of the list have been dealt with: the selected ones are gone, all others are there. */
  ghost predicate Progress(d0: Disk, d: Disk, stats: seq<SegmentStat>, i: nat, threshold: real) {
    && SegmentStatsExact(d0, stats) && i <= |stats|
    && d.active == d0.active && d.nextSeg >= d0.nextSeg
    && (forall g :: g in d0.ends ==>
          g < d0.nextSeg && (g in d.ends <==> !(Listed(stats, i, g) && Selected(d0, g, threshold))))
    && (forall l: Loc :: l.seg in d0.ends && l.seg in d.ends ==> SameAt(d0.pages, d.pages, l))
  }

  /** The selected segments among the first `i` of the list are covered. */
  predicate CoveredSoFar(d0: Disk, stats: seq<SegmentStat>, i: nat, threshold: real, known: set<ChunkId>)
    requires i <= |stats|
  {
    forall g :: g in d0.ends && Listed(stats, i, g) && Selected(d0, g, threshold) ==> Covered(d0.pages, g, known)
  }

  /** Every unflagged page of every selected segment belongs to a chunk with a record. */
  predicate AllCovered(d: Disk, threshold: real, known: set<ChunkId>) {
    forall g :: g in d.ends && Selected(d, g, threshold) ==> Covered(d.pages, g, known)
  }

  lemma CoveredStarts(d: Disk, stats: seq<SegmentStat>, threshold: real, known: set<ChunkId>)
    ensures CoveredSoFar(d, stats, 0, threshold, known)
  {
  }

  /** One more segment: its pages are those it had at the start. */
  lemma CoveredSteps(d0: Disk, d: Disk, stats: seq<SegmentStat>, i: nat, threshold: real, known: set<ChunkId>)
    requires Progress(d0, d, stats, i, threshold) && i < |stats| && CoveredSoFar(d0, stats, i, threshold, known)
    ensures var seg := stats[i].seg;
            && seg in d.ends && seg in d0.ends
            && (Selected(d0, seg, threshold) <==> !(d.active == Some(seg) || stats[i].DeadRatio() < threshold))
            && (CoveredSoFar(d0, stats, i + 1, threshold, known)
                <==> (Selected(d0, seg, threshold) ==> Covered(d.pages, seg, known)))
  {
    var seg := stats[i].seg;
    assert !Listed(stats, i, seg);
    assert forall g :: Listed(stats, i + 1, g) <==> Listed(stats, i, g) || g == seg;
    assert Covered(d.pages, seg, known) <==> Covered(d0.pages, seg, known) by {
      assert forall l: Loc :: l.seg == seg ==> SameAt(d0.pages, d.pages, l);
    }
  }

  lemma CoveredEnds(d: Disk, stats: seq<SegmentStat>, threshold: real, known: set<ChunkId>)
    requires SegmentStatsExact(d, stats) && forall g :: g in d.ends ==> g < d.nextSeg
    ensures CoveredSoFar(d, stats, |stats|, threshold, known) <==> AllCovered(d, threshold, known)
  {
  }

  /** What fails early fails for good. */
  lemma UncoveredStays(d: Disk, stats: seq<SegmentStat>, i: nat, threshold: real, known: set<ChunkId>)
    requires i <= |stats| && !CoveredSoFar(d, stats, i, threshold, known)
    ensures !AllCovered(d, threshold, known)
  {
  }

  predicate Listed(stats: seq<SegmentStat>, i: nat, g: nat)
    requires i <= |stats|
  {
    exists j :: 0 <= j < i && stats[j].seg == g
  }

  /** One entry for each segment with pages, in segment order. */
  predicate SegmentStatsExact(d: Disk, stats: seq<SegmentStat>) {
    && (forall i :: 0 <= i < |stats| ==>
          stats[i].seg in d.ends && stats[i] == StatOf(d, stats[i].seg) && stats[i].totalPages > 0)
    && (forall i, j :: 0 <= i < j < |stats| ==> stats[i].seg < stats[j].seg)
    && (forall g :: g in d.ends && g < d.nextSeg && StatOf(d, g).totalPages > 0 ==> Listed(stats, |stats|, g))
  }

  lemma ProgressStarts(d: Disk, stats: seq<SegmentStat>, threshold: real)
    requires ValidDisk(d) && SegmentStatsExact(d, stats)
    ensures Progress(d, d, stats, 0, threshold)
  {
  }

  /** A segment that is not selected is left alone. */
  lemma ProgressSkips(d0: Disk, d: Disk, stats: seq<SegmentStat>, i: nat, threshold: real)
    requires Progress(d0, d, stats, i, threshold) && i < |stats|
    requires d.active == Some(stats[i].seg) || stats[i].DeadRatio() < threshold
    ensures Progress(d0, d, stats, i + 1, threshold)
  {
    assert forall g :: Listed(stats, i + 1, g) <==> Listed(stats, i, g) || g == stats[i].seg;
  }

  lemma ProgressDrops(d0: Disk, d: Disk, d': Disk, stats: seq<SegmentStat>, i: nat, threshold: real)
    requires Progress(d0, d, stats, i, threshold) && i < |stats|
    requires !(d.active == Some(stats[i].seg) || stats[i].DeadRatio() < threshold)
    requires Replaces(d, d', stats[i].seg, true)
    ensures Progress(d0, d', stats, i + 1, threshold)
  {
    assert forall g :: Listed(stats, i + 1, g) <==> Listed(stats, i, g) || g == stats[i].seg;
    forall l: Loc | l.seg in d0.ends && l.seg in d'.ends
      ensures SameAt(d0.pages, d'.pages, l)
    {
      assert SameAt(d0.pages, d.pages, l) && SameAt(d.pages, d'.pages, l);
    }
  }

  lemma ProgressEnds(d0: Disk, d: Disk, stats: seq<SegmentStat>, threshold: real)
    requires Progress(d0, d, stats, |stats|, threshold)
    ensures forall g :: g in d0.ends ==> (g in d.ends <==> !Selected(d0, g, threshold))
  {
  }

  /** One segment's entry, counted page by page. */
  method CountSegment(d: Disk, seg: nat) returns (stat: SegmentStat)
    requires seg in d.ends
    ensures stat == StatOf(d, seg)
  {
    var n, total, dead := 0, 0, 0;
    while n < d.ends[seg]
      invariant n <= d.ends[seg]
      invariant total == TotalPages(d.pages, seg, n) && dead == DeadPages(d.pages, seg, n)
    {
      if Loc(seg, n) in d.pages {
        total := total + 1;
        if d.pages[Loc(seg, n)].deleted {
          dead := dead + 1;
        }
      }
      n := n + 1;
    }
    return SegmentStat(seg, total, dead);
  }

  method SegmentStats(d: Disk) returns (stats: seq<SegmentStat>)
    ensures SegmentStatsExact(d, stats)
  {
    stats := [];
    var seg := 0;
    while seg < d.nextSeg
      invariant seg <= d.nextSeg
      invariant forall i :: 0 <= i < |stats| ==>
        && stats[i].seg < seg && stats[i].seg in d.ends
        && stats[i] == StatOf(d, stats[i].seg) && stats[i].totalPages > 0
      invariant forall i, j :: 0 <= i < j < |stats| ==> stats[i].seg < stats[j].seg
      invariant forall g :: g in d.ends && g < seg && StatOf(d, g).totalPages > 0 ==> Listed(stats, |stats|, g)
    {
      if seg in d.ends {
        var stat := CountSegment(d, seg);
        if stat.totalPages > 0 {
          ListedSnoc(stats, stat);
          stats := stats + [stat];
        }
      }
      seg := seg + 1;
    }
  }

  lemma ListedSnoc(stats: seq<SegmentStat>, stat: SegmentStat)
    ensures forall g :: Listed(stats + [stat], |stats + [stat]|, g) <==> Listed(stats, |stats|, g) || g == stat.seg
  {
    var all := stats + [stat];
    assert forall j :: 0 <= j < |stats| ==> all[j] == stats[j];
    assert all[|stats|] == stat;
  }

  /** The copying loop of RewriteSegment. */
  method CopyLivePages(cfg: Config, pages: Pages, seg: nat, n: nat, newSeg: nat)
    returns (live: seq<nat>, copies: Pages, relocated: seq<ChunkEntry>)
    ensures Machine.Copying(cfg, pages, seg, newSeg, n, live, copies, relocated)
  {
    live, copies, relocated := [], map[], [];
    for off := 0 to n
      invariant Machine.Copying(cfg, pages, seg, newSeg, off, live, copies, relocated)
    {
      Machine.CopyingStep(cfg, pages, seg, newSeg, off, live, copies, relocated);
      if Loc(seg, off) in pages && !pages[Loc(seg, off)].deleted {
        var page, at := pages[Loc(seg, off)], Loc(newSeg, |live|);
        live, copies, relocated := live + [off], copies[at := page], relocated + [Machine.CopiedEntry(cfg, page, at)];
      }
    }
  }

  /** RewriteSegment: the unflagged pages, verbatim and in order, into a new segment. */
  method RewriteSegment(cfg: Config, disk: Disk, seg: nat) returns (disk': Disk, relocated: seq<ChunkEntry>)
    requires seg in disk.ends && disk.active != Some(seg)
    ensures disk' == Machine.RewrittenDisk(disk, seg) && relocated == Machine.RewrittenEntries(cfg, disk, seg)
  {
    var live, copies;
    live, copies, relocated := CopyLivePages(cfg, disk.pages, seg, disk.ends[seg], disk.nextSeg);
    disk' := disk.(pages := disk.pages + copies, ends := disk.ends[disk.nextSeg := |live|], nextSeg := disk.nextSeg + 1);
  }

  /**
   Committing the relocated entries one by one. It stops at an entry whose chunk
   has no record; at every point each record resolves to its content.
   */
  method RelocateAll(cfg: Config, idx: Index, ghost disk: Disk, ghost seg: nat, ghost newSeg: nat,
                     relocated: seq<ChunkEntry>)
    returns (ok: bool)
    requires cfg.capacity >= 1 && Between(cfg, idx.State(), disk, seg, newSeg, relocated)
    modifies idx`chunks
    ensures Accounts(cfg, idx.State())
    ensures SameCounts(old(idx.chunks), idx.chunks) && idx.chunks.Keys == old(idx.chunks).Keys
    ensures ok <==> forall i :: 0 <= i < |relocated| ==> relocated[i].chunkId in old(idx.chunks)
    ensures ok ==> Between(cfg, idx.State(), disk, seg, newSeg, [])
    ensures Core(cfg, idx.State(), disk) && WholePages(cfg, disk.pages)
  {
    ghost var before := idx.chunks;
    CommittingStarts(cfg, idx.State(), disk, seg, newSeg, relocated);
    var i := 0;
    while i < |relocated|
      invariant 0 <= i <= |relocated|
      invariant Committing(cfg, before, idx.State(), disk, seg, newSeg, relocated, i)
    {
      CommittingMeans(cfg, before, idx.State(), disk, seg, newSeg, relocated, i);
      var entry := relocated[i];
      if entry.chunkId !in idx.chunks {
        return false;
      }
      var existing := idx.chunks[entry.chunkId];
      CommittingStep(cfg, before, idx.State(), disk, seg, newSeg, relocated, i);
      idx.PutChunk(Machine.Carried(entry, existing));
      i := i + 1;
    }
    CommittingMeans(cfg, before, idx.State(), disk, seg, newSeg, relocated, i);
    return true;
  }

  /** Rewriting one segment, start to end. */
  method RewriteOne(cfg: Config, idx: Index, d: Disk, seg: nat) returns (ok: bool, d': Disk)
    requires cfg.capacity >= 1 && Core(cfg, idx.State(), d) && WholePages(cfg, d.pages) && Accounts(cfg, idx.State())
    requires seg in d.ends && d.active != Some(seg)
    modifies idx`chunks
    ensures Core(cfg, idx.State(), d') && WholePages(cfg, d'.pages) && Accounts(cfg, idx.State())
    ensures SameCounts(old(idx.chunks), idx.chunks) && idx.chunks.Keys == old(idx.chunks).Keys
    ensures Replaces(d, d', seg, ok)
    ensures ok <==> Covered(d.pages, seg, old(idx.chunks).Keys)
  {
    CoveredIff(cfg, d, seg, idx.chunks.Keys);
    LoneRewrite(cfg, idx.State(), d, seg);
    DropReplaces(d, seg, true);
    DropReplaces(d, seg, false);
    var relocated;
    d', relocated := RewriteSegment(cfg, d, seg);
    ok := RelocateAll(cfg, idx, d', seg, d.nextSeg, relocated);
    if ok {
      LoneDrop(cfg, idx.State(), d', seg, d.nextSeg);
      d' := Machine.WithoutSegment(d', seg);
    }
  }

  /**
   The loop of phase 2 over the segment statistics. It stops early exactly if some
   selected segment has an unflagged page whose chunk has no record.
   */
  method CompactSegments(cfg: Config, idx: Index, d: Disk, threshold: real) returns (ok: bool, compacted: nat, d': Disk)
    requires cfg.capacity >= 1 && Core(cfg, idx.State(), d) && WholePages(cfg, d.pages) && Accounts(cfg, idx.State())
    modifies idx`chunks
    ensures Core(cfg, idx.State(), d') && WholePages(cfg, d'.pages) && Accounts(cfg, idx.State())
    ensures SameCounts(old(idx.chunks), idx.chunks)
    ensures ok <==> AllCovered(d, threshold, old(idx.chunks).Keys)
    ensures ok ==> forall g :: g in d.ends ==> (g in d'.ends <==> !Selected(d, g, threshold))
  {
    ghost var chunks0 := idx.chunks;
    var stats := SegmentStats(d);
    SameCountsRefl(chunks0);
    ProgressStarts(d, stats, threshold);
    CoveredStarts(d, stats, threshold, chunks0.Keys);
    d', compacted := d, 0;
    var i := 0;
    while i < |stats|
      invariant 0 <= i <= |stats|
      invariant Core(cfg, idx.State(), d') && WholePages(cfg, d'.pages) && Accounts(cfg, idx.State())
      invariant SameCounts(chunks0, idx.chunks) && idx.chunks.Keys == chunks0.Keys
      invariant Progress(d, d', stats, i, threshold) && CoveredSoFar(d, stats, i, threshold, chunks0.Keys)
    {
      CoveredSteps(d, d', stats, i, threshold, chunks0.Keys);
      if !(d'.active == Some(stats[i].seg) || stats[i].DeadRatio() < threshold) {
        ghost var chunks, rewriting := idx.chunks, d';
        ok, d' := RewriteOne(cfg, idx, d', stats[i].seg);
        SameCountsTrans(chunks0, chunks, idx.chunks);
        if !ok {
          UncoveredStays(d, stats, i + 1, threshold, chunks0.Keys);
          return;
        }
        ProgressDrops(d, rewriting, d', stats, i, threshold);
        compacted := compacted + 1;
      } else {
        ProgressSkips(d, d', stats, i, threshold);
      }
      i := i + 1;
    }
    ProgressEnds(d, d', stats, threshold);
    CoveredEnds(d, stats, threshold, chunks0.Keys);
    ok := true;
  }
}
