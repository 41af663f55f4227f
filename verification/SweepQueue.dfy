/** The work list of compaction phase 1: what the scan collects and what working it off leaves. */
module SweepQueue {
  import opened Base
  import opened Records
  import opened Disk
  import opened StoreInvariant
  import opened SweepLedger
  import Spec = IndexSpec

  /** A page the scan queued: unflagged, and its chunk dead when it was looked up. */
  predicate QueuedOk(pages: Pages, chunks: ChunkTable, e: ChunkEntry) {
    && e.loc in pages && pages[e.loc].id == e.chunkId && |pages[e.loc].data| == e.length
    && Reapable(chunks, pages[e.loc])
  }

  /** The queue holds exactly the reapable pages among those visited, each once. */
  ghost predicate QueueExact(pages: Pages, chunks: ChunkTable, queue: seq<ChunkEntry>, visited: set<Loc>) {
    && (forall i :: 0 <= i < |queue| ==> QueuedOk(pages, chunks, queue[i]) && queue[i].loc in visited)
    && (forall i, j :: 0 <= i < j < |queue| ==> queue[i].loc != queue[j].loc)
    && (forall l :: l in visited && l in pages && Reapable(chunks, pages[l]) ==> InQueue(queue, l))
  }

  predicate InQueue(queue: seq<ChunkEntry>, l: Loc) {
    exists i :: 0 <= i < |queue| && queue[i].loc == l
  }

  lemma QueueSkip(pages: Pages, chunks: ChunkTable, queue: seq<ChunkEntry>, visited: set<Loc>, l: Loc)
    requires QueueExact(pages, chunks, queue, visited) && l in pages && !Reapable(chunks, pages[l])
    ensures QueueExact(pages, chunks, queue, visited + {l})
  {
  }

  lemma QueuePush(pages: Pages, chunks: ChunkTable, queue: seq<ChunkEntry>, visited: set<Loc>, e: ChunkEntry)
    requires QueueExact(pages, chunks, queue, visited) && QueuedOk(pages, chunks, e) && e.loc !in visited
    ensures QueueExact(pages, chunks, queue + [e], visited + {e.loc})
  {
    var queue' := queue + [e];
    forall l | l in visited + {e.loc} && l in pages && Reapable(chunks, pages[l])
      ensures InQueue(queue', l)
    {
      if l == e.loc {
        assert queue'[|queue|] == e;
      } else {
        var i :| 0 <= i < |queue| && queue[i].loc == l;
        assert queue'[i].loc == l;
      }
    }
  }

  function PageEntry(cfg: Config, page: Page, l: Loc): ChunkEntry {
    ChunkEntry(page.id, cfg.ns, l, 1, |page.data|, page.seqNo, 0, [], [])
  }

  lemma FreedStep(pages: Pages, chunks: ChunkTable, seen: Pages, l: Loc)
    requires l in pages && l !in seen
    ensures var page := pages[l];
            && FreedBytes(seen[l := page], chunks)
               == FreedBytes(seen, chunks) + (if Reapable(chunks, page) then |page.data| else 0)
            && FreedPages(seen[l := page], chunks)
               == FreedPages(seen, chunks) + (if Reapable(chunks, page) then 1 else 0)
  {
    MapSumPut(seen, l, pages[l], ReapedBytes(chunks));
    MapSumPut(seen, l, pages[l], ReapedOne(chunks));
  }

  /** The records left after the reap transactions of the first `n` queued pages. */
  function ReapedRecords(chunks: ChunkTable, queue: seq<ChunkEntry>, n: nat): ChunkTable
    requires n <= |queue|
  {
    if n == 0 then chunks
    else Spec.ReapPage(ReapedRecords(chunks, queue, n - 1), queue[n - 1].chunkId, queue[n - 1].loc).chunks
  }

  function FlaggedPages(pages: Pages, queue: seq<ChunkEntry>, n: nat): Pages
    requires n <= |queue|
  {
    if n == 0 then pages else MarkDeleted(FlaggedPages(pages, queue, n - 1), queue[n - 1].loc)
  }

  predicate Hit(queue: seq<ChunkEntry>, n: nat, c: ChunkId, l: Loc)
    requires n <= |queue|
  {
    exists j :: 0 <= j < n && queue[j].chunkId == c && queue[j].loc == l
  }

  /** A record goes exactly when its own page comes up; with dead pages only, every verdict is safe. */
  lemma {:induction false} ReapedExact(pages: Pages, chunks: ChunkTable, queue: seq<ChunkEntry>, n: nat)
    requires n <= |queue| && forall i :: 0 <= i < |queue| ==> QueuedOk(pages, chunks, queue[i])
    ensures var r := ReapedRecords(chunks, queue, n);
            && (forall c :: c in r ==> c in chunks && r[c] == chunks[c])
            && (forall c :: c in chunks ==> (c in r <==> !Hit(queue, n, c, chunks[c].loc)))
            && (n < |queue| ==> Spec.ReapPage(r, queue[n].chunkId, queue[n].loc).safe)
  {
    if n > 0 {
      ReapedExact(pages, chunks, queue, n - 1);
      var e := queue[n - 1];
      forall c | c in chunks
        ensures Hit(queue, n, c, chunks[c].loc)
           <==> Hit(queue, n - 1, c, chunks[c].loc) || (e.chunkId == c && e.loc == chunks[c].loc)
      {
      }
    }
  }

  lemma {:induction false} FlaggedExact(pages: Pages, queue: seq<ChunkEntry>, n: nat)
    requires n <= |queue| && forall i :: 0 <= i < |queue| ==> queue[i].loc in pages
    ensures var f := FlaggedPages(pages, queue, n);
            && f.Keys == pages.Keys
            && (forall l :: l in pages ==>
                  f[l] == if (exists j :: 0 <= j < n && queue[j].loc == l) then pages[l].(deleted := true) else pages[l])
  {
    if n > 0 {
      FlaggedExact(pages, queue, n - 1);
    }
  }

  lemma RecordComesUp(cfg: Config, pages: Pages, chunks: ChunkTable, queue: seq<ChunkEntry>, c: ChunkId)
    requires cfg.capacity >= 1 && RecordsHold(cfg, pages, chunks) && QueueExact(pages, chunks, queue, pages.Keys)
    requires c in chunks
    ensures Hit(queue, |queue|, c, chunks[c].loc) <==> chunks[c].refCount <= 0
  {
    var l := chunks[c].loc;
    assert Holds(cfg, pages, c, chunks[c]) && l in Span(l, chunks[c].pageCount);
    if chunks[c].refCount <= 0 {
      assert Reapable(chunks, pages[l]);
      var i :| 0 <= i < |queue| && queue[i].loc == l;
      assert QueuedOk(pages, chunks, queue[i]);
    }
  }

  lemma QueueFlags(pages: Pages, chunks: ChunkTable, queue: seq<ChunkEntry>)
    requires QueueExact(pages, chunks, queue, pages.Keys)
    ensures FlaggedPages(pages, queue, |queue|) == SweptPages(pages, chunks)
  {
    FlaggedExact(pages, queue, |queue|);
    var f, w := FlaggedPages(pages, queue, |queue|), SweptPages(pages, chunks);
    forall l | l in pages
      ensures f[l] == w[l]
    {
      assert Reapable(chunks, pages[l]) <==> InQueue(queue, l);
    }
  }

  /** Working off an exact queue leaves the swept state. */
  lemma QueueSweeps(cfg: Config, pages: Pages, chunks: ChunkTable, queue: seq<ChunkEntry>)
    requires cfg.capacity >= 1 && RecordsHold(cfg, pages, chunks) && QueueExact(pages, chunks, queue, pages.Keys)
    ensures ReapedRecords(chunks, queue, |queue|) == LiveRecords(chunks)
    ensures FlaggedPages(pages, queue, |queue|) == SweptPages(pages, chunks)
  {
    ReapedExact(pages, chunks, queue, |queue|);
    forall c | c in chunks
      ensures Hit(queue, |queue|, c, chunks[c].loc) <==> chunks[c].refCount <= 0
    {
      RecordComesUp(cfg, pages, chunks, queue, c);
    }
    QueueFlags(pages, chunks, queue);
  }
}
