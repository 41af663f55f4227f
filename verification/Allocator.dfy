/**
 Where chunks are placed: one active segment grows at its end, a full one is
 sealed and replaced, and compaction copies a segment's live pages to a new one.
 Offsets and sizes are bytes.
 */
module Allocation {
  import opened Base
  import opened PageFormat

  datatype Span = Span(seg: nat, off: nat, len: nat)

  /** `sizes` has every existing segment file; `spans` and `created` record all that was ever handed out. */
  datatype Alloc = Alloc(active: Option<nat>, nextSeq: nat, sizes: map<nat, nat>, spans: seq<Span>, created: set<nat>)

  const EMPTY_ALLOC := Alloc(None, 1, map[], [], {})

  function CreateFile(a: Alloc, seq_: nat): Alloc {
    a.(sizes := a.sizes[seq_ := SEG_HEADER], created := a.created + {seq_})
  }

  function NewActive(a: Alloc): Alloc {
    CreateFile(a, a.nextSeq).(active := Some(a.nextSeq), nextSeq := a.nextSeq + 1)
  }

  function EnsureActive(a: Alloc): Alloc {
    if a.active.Some? then a else NewActive(a)
  }

  predicate Active(a: Alloc) {
    a.active.Some? && a.active.value in a.sizes
  }

  function RollIfNeeded(a: Alloc, maxSegmentSize: nat): Alloc
    requires Active(a)
  {
    if a.sizes[a.active.value] < maxSegmentSize then a else NewActive(a)
  }

  /** The pages of one chunk, at the end of the active segment. */
  function Append(a: Alloc, pages: nat, pageSize: PageSize): Alloc
    requires Active(a)
  {
    var seg := a.active.value;
    var len := pages * pageSize;
    a.(sizes := a.sizes[seg := a.sizes[seg] + len], spans := a.spans + [Span(seg, a.sizes[seg], len)])
  }

  function Write(a: Alloc, pages: nat, pageSize: PageSize, maxSegmentSize: nat): Alloc
    requires a.active.Some? ==> Active(a)
  {
    Append(RollIfNeeded(EnsureActive(a), maxSegmentSize), pages, pageSize)
  }

  /** How many pages of a segment are unflagged. */
  function CountLive(deleted: seq<bool>): (live: nat)
    ensures live <= |deleted|
  {
    if deleted == [] then 0
    else CountLive(deleted[..|deleted| - 1]) + (if deleted[|deleted| - 1] then 0 else 1)
  }

  /** RewriteSegment's file: `live` pages, copied one behind the other. */
  function Rewrite(a: Alloc, live: nat, pageSize: PageSize): Alloc
    decreases live
  {
    if live == 0 then
      CreateFile(a, a.nextSeq).(nextSeq := a.nextSeq + 1)
    else
      var before := Rewrite(a, live - 1, pageSize);
      var end := if a.nextSeq in before.sizes then before.sizes[a.nextSeq] else 0;
      before.(sizes := before.sizes[a.nextSeq := end + pageSize],
              spans := before.spans + [Span(a.nextSeq, end, pageSize)])
  }

  /** highestSegSeq: 0 when there is no segment file. */
  ghost predicate IsHighest(sizes: map<nat, nat>, top: nat) {
    (forall id :: id in sizes ==> id <= top) && (top in sizes || (top == 0 && sizes == map[]))
  }

  /** Open: the highest segment becomes active and numbering goes on behind it. */
  function Resume(a: Alloc, top: nat): Alloc {
    if top > 0 then a.(active := Some(top), nextSeq := top + 1) else a.(active := None, nextSeq := 1)
  }

  // ---- what always holds

  ghost predicate Aligned(pageSize: PageSize, off: nat) {
    exists n: nat :: off == PageAt(pageSize, n)
  }

  /** The size no segment exceeds. */
  function Bound(pageSize: PageSize, maxSegmentSize: nat, maxPages: nat): nat {
    Max(SEG_HEADER, maxSegmentSize - 1) + maxPages * pageSize
  }

  predicate Apart(s: Span, t: Span) {
    s.seg != t.seg || s.off + s.len <= t.off || t.off + t.len <= s.off
  }

  ghost predicate SpanFits(a: Alloc, pageSize: PageSize, s: Span) {
    && s.seg in a.created && Aligned(pageSize, s.off)
    && (s.seg in a.sizes ==> s.off + s.len <= a.sizes[s.seg])
  }

  ghost predicate IdsFresh(a: Alloc) {
    && a.nextSeq >= 1
    && (forall id :: id in a.created ==> 1 <= id < a.nextSeq)
    && a.sizes.Keys <= a.created
    && (a.active.Some? ==> a.active.value in a.sizes)
    && (a.created != {} ==> exists top :: top in a.sizes && forall id :: id in a.created ==> id <= top)
  }

  ghost predicate SizesBounded(a: Alloc, pageSize: PageSize, bound: nat) {
    forall id :: id in a.sizes ==> Aligned(pageSize, a.sizes[id]) && a.sizes[id] <= bound
  }

  ghost predicate SpansApart(a: Alloc, pageSize: PageSize) {
    && (forall i :: 0 <= i < |a.spans| ==> SpanFits(a, pageSize, a.spans[i]))
    && (forall i, j :: 0 <= i < j < |a.spans| ==> Apart(a.spans[i], a.spans[j]))
  }

  ghost predicate Inv(a: Alloc, pageSize: PageSize, bound: nat) {
    IdsFresh(a) && SizesBounded(a, pageSize, bound) && SpansApart(a, pageSize)
  }
}

module AllocatorRuns {
  import opened Base
  import opened PageFormat
  import opened Allocation

  datatype AllocOp =
    | WriteChunk(pages: nat)
    | Compact(source: nat, live: nat, deleted: bool)
    | FailedRewrite
    | Reopen(top: nat)

  /** What the engine admits: chunks up to the largest, rewrites of sealed segments, the file listing on open. */
  ghost predicate Admits(a: Alloc, pageSize: PageSize, maxPages: nat, op: AllocOp) {
    match op
    case WriteChunk(pages) => 1 <= pages <= maxPages
    case Compact(source, live, _) => source in a.sizes && a.active != Some(source) && PageAt(pageSize, live) <= a.sizes[source]
    case FailedRewrite => true
    case Reopen(top) => IsHighest(a.sizes, top)
  }

  function Step(a: Alloc, pageSize: PageSize, maxSegmentSize: nat, op: AllocOp): Alloc
    requires a.active.Some? ==> Active(a)
  {
    match op
    case WriteChunk(pages) => Write(a, pages, pageSize, maxSegmentSize)
    case Compact(source, live, deleted) =>
      var r := Rewrite(a, live, pageSize);
      if deleted then r.(sizes := r.sizes - {source}) else r
    case FailedRewrite => a.(nextSeq := a.nextSeq + 1)
    case Reopen(top) =>
      Resume(a, top)
  }

  lemma AlignedNext(pageSize: PageSize, off: nat, pages: nat)
    requires Aligned(pageSize, off)
    ensures Aligned(pageSize, off + pages * pageSize)
  {
    var n: nat :| off == PageAt(pageSize, n);
    assert off + pages * pageSize == PageAt(pageSize, n + pages);
  }

  lemma NewActiveKeeps(a: Alloc, pageSize: PageSize, bound: nat)
    requires Inv(a, pageSize, bound) && SEG_HEADER <= bound
    ensures Inv(NewActive(a), pageSize, bound) && Active(NewActive(a))
  {
    CreateKeeps(a, pageSize, bound);
  }

  lemma CreateKeeps(a: Alloc, pageSize: PageSize, bound: nat)
    requires Inv(a, pageSize, bound) && SEG_HEADER <= bound
    ensures var a' := CreateFile(a, a.nextSeq).(nextSeq := a.nextSeq + 1);
            Inv(a', pageSize, bound) && a.nextSeq !in a.created
  {
    var a' := CreateFile(a, a.nextSeq).(nextSeq := a.nextSeq + 1);
    assert PageAt(pageSize, 0) == SEG_HEADER;
    forall i | 0 <= i < |a'.spans|
      ensures SpanFits(a', pageSize, a'.spans[i])
    {
      assert SpanFits(a, pageSize, a.spans[i]);
    }
    assert a.nextSeq in a'.sizes && forall id :: id in a'.created ==> id <= a.nextSeq;
  }

  /** Growing one existing segment by a span at its end. */
  lemma GrowBy(a: Alloc, pageSize: PageSize, bound: nat, seg: nat, len: nat)
    requires Inv(a, pageSize, bound) && seg in a.sizes && a.sizes[seg] + len <= bound
    requires Aligned(pageSize, a.sizes[seg] + len)
    ensures Inv(a.(sizes := a.sizes[seg := a.sizes[seg] + len], spans := a.spans + [Span(seg, a.sizes[seg], len)]),
                pageSize, bound)
  {
    var end := a.sizes[seg];
    var a' := a.(sizes := a.sizes[seg := end + len], spans := a.spans + [Span(seg, end, len)]);
    GrowSpans(a, a', pageSize, seg, end, len);
    forall id | id in a'.sizes
      ensures Aligned(pageSize, a'.sizes[id]) && a'.sizes[id] <= bound
    {
      if id != seg {
        assert id in a.sizes;
      }
    }
    assert a'.sizes.Keys == a.sizes.Keys;
  }

  lemma GrowKeeps(a: Alloc, pageSize: PageSize, bound: nat, seg: nat, pages: nat)
    requires Inv(a, pageSize, bound) && seg in a.sizes && a.sizes[seg] + pages * pageSize <= bound
    ensures var len := pages * pageSize;
            Inv(a.(sizes := a.sizes[seg := a.sizes[seg] + len], spans := a.spans + [Span(seg, a.sizes[seg], len)]),
                pageSize, bound)
  {
    AlignedNext(pageSize, a.sizes[seg], pages);
    GrowBy(a, pageSize, bound, seg, pages * pageSize);
  }

  lemma GrowSpans(a: Alloc, a': Alloc, pageSize: PageSize, seg: nat, end: nat, len: nat)
    requires SpansApart(a, pageSize) && seg in a.sizes && a.sizes[seg] == end && seg in a.created
    requires Aligned(pageSize, end) && a'.created == a.created
    requires a'.sizes == a.sizes[seg := end + len] && a'.spans == a.spans + [Span(seg, end, len)]
    ensures SpansApart(a', pageSize)
  {
    forall i | 0 <= i < |a'.spans|
      ensures SpanFits(a', pageSize, a'.spans[i])
    {
      if i < |a.spans| {
        assert a'.spans[i] == a.spans[i] && SpanFits(a, pageSize, a.spans[i]);
      }
    }
    forall i, j | 0 <= i < j < |a'.spans|
      ensures Apart(a'.spans[i], a'.spans[j])
    {
      assert a'.spans[i] == a.spans[i] && SpanFits(a, pageSize, a.spans[i]);
      if j < |a.spans| {
        assert a'.spans[j] == a.spans[j];
      }
    }
  }

  lemma PrepareKeeps(a: Alloc, pageSize: PageSize, maxSegmentSize: nat, bound: nat)
    requires Inv(a, pageSize, bound) && SEG_HEADER <= bound
    ensures var r := RollIfNeeded(EnsureActive(a), maxSegmentSize);
            Inv(r, pageSize, bound) && Active(r) && r.sizes[r.active.value] <= Max(SEG_HEADER, maxSegmentSize - 1)
  {
    if a.active.None? {
      NewActiveKeeps(a, pageSize, bound);
    }
    var e := EnsureActive(a);
    if e.sizes[e.active.value] >= maxSegmentSize {
      NewActiveKeeps(e, pageSize, bound);
    }
  }

  lemma WriteKeeps(a: Alloc, pageSize: PageSize, maxSegmentSize: nat, maxPages: nat, pages: nat)
    requires var bound := Bound(pageSize, maxSegmentSize, maxPages); Inv(a, pageSize, bound)
    requires 1 <= pages <= maxPages
    ensures Inv(Write(a, pages, pageSize, maxSegmentSize), pageSize, Bound(pageSize, maxSegmentSize, maxPages))
  {
    var bound := Bound(pageSize, maxSegmentSize, maxPages);
    TimesMono(pages, maxPages, pageSize);
    PrepareKeeps(a, pageSize, maxSegmentSize, bound);
    var r := RollIfNeeded(EnsureActive(a), maxSegmentSize);
    GrowKeeps(r, pageSize, bound, r.active.value, pages);
  }

  lemma TimesMono(m: nat, n: nat, k: nat)
    requires m <= n
    ensures 0 <= m * k <= n * k
  {
  }

  lemma {:induction false} RewriteKeeps(a: Alloc, pageSize: PageSize, bound: nat, live: nat)
    requires Inv(a, pageSize, bound) && PageAt(pageSize, live) <= bound
    ensures var r := Rewrite(a, live, pageSize);
            && Inv(r, pageSize, bound)
            && r.sizes == a.sizes[a.nextSeq := PageAt(pageSize, live)]
            && r.created == a.created + {a.nextSeq} && r.active == a.active && a.nextSeq !in a.created
    decreases live
  {
    if live == 0 {
      CreateKeeps(a, pageSize, bound);
    } else {
      TimesMono(live - 1, live, pageSize);
      RewriteKeeps(a, pageSize, bound, live - 1);
      RewriteNext(a, live, pageSize);
      GrowKeeps(Rewrite(a, live - 1, pageSize), pageSize, bound, a.nextSeq, 1);
    }
  }

  lemma RewriteNext(a: Alloc, live: nat, pageSize: PageSize)
    requires live > 0
    requires var before := Rewrite(a, live - 1, pageSize);
             before.sizes == a.sizes[a.nextSeq := PageAt(pageSize, live - 1)]
    ensures var before := Rewrite(a, live - 1, pageSize);
            var end, len := before.sizes[a.nextSeq], 1 * pageSize;
            && end + len == PageAt(pageSize, live)
            && Rewrite(a, live, pageSize)
               == before.(sizes := before.sizes[a.nextSeq := end + len], spans := before.spans + [Span(a.nextSeq, end, len)])
            && before.sizes[a.nextSeq := end + len] == a.sizes[a.nextSeq := end + len]
  {
    assert PageAt(pageSize, live) == PageAt(pageSize, live - 1) + pageSize;
  }

  lemma DeleteKeeps(a: Alloc, pageSize: PageSize, bound: nat, source: nat)
    requires Inv(a, pageSize, bound) && a.active != Some(source)
    requires exists newer :: newer in a.sizes && newer > source
    ensures Inv(a.(sizes := a.sizes - {source}), pageSize, bound)
  {
    var a' := a.(sizes := a.sizes - {source});
    var top :| top in a.sizes && forall id :: id in a.created ==> id <= top;
    assert top in a'.sizes;
    forall i | 0 <= i < |a'.spans|
      ensures SpanFits(a', pageSize, a'.spans[i])
    {
      assert SpanFits(a, pageSize, a.spans[i]);
    }
  }

  /** The listing at open finds a segment at least as new as any ever created. */
  lemma ReopenKeeps(a: Alloc, pageSize: PageSize, bound: nat, top: nat)
    requires Inv(a, pageSize, bound) && IsHighest(a.sizes, top)
    ensures Inv(Step(a, pageSize, 0, Reopen(top)), pageSize, bound)
    ensures forall id :: id in a.created ==> id <= top
  {
    var a' := Step(a, pageSize, 0, Reopen(top));
    if a.created != {} {
      var t :| t in a.sizes && forall id :: id in a.created ==> id <= t;
      assert t <= top;
    } else {
      assert a.sizes.Keys == {};
    }
    forall i | 0 <= i < |a'.spans|
      ensures SpanFits(a', pageSize, a'.spans[i])
    {
      assert SpanFits(a, pageSize, a.spans[i]);
    }
  }

  /** One step keeps everything, hands out only ids never used before, and never forgets a span. */
  lemma StepKeeps(a: Alloc, pageSize: PageSize, maxSegmentSize: nat, maxPages: nat, op: AllocOp)
    requires var bound := Bound(pageSize, maxSegmentSize, maxPages); Inv(a, pageSize, bound)
    requires Admits(a, pageSize, maxPages, op)
    ensures var a' := Step(a, pageSize, maxSegmentSize, op);
            Inv(a', pageSize, Bound(pageSize, maxSegmentSize, maxPages)) && a.spans <= a'.spans
  {
    var bound := Bound(pageSize, maxSegmentSize, maxPages);
    match op
    case WriteChunk(pages) =>
      WriteKeeps(a, pageSize, maxSegmentSize, maxPages, pages);
    case Compact(source, live, deleted) =>
      RewriteKeeps(a, pageSize, bound, live);
      RewriteExtends(a, live, pageSize);
      var r := Rewrite(a, live, pageSize);
      if deleted {
        assert a.nextSeq in r.sizes && a.nextSeq > source;
        DeleteKeeps(r, pageSize, bound, source);
      }
    case FailedRewrite =>
      SkipKeeps(a, pageSize, bound);
    case Reopen(top) =>
      ReopenKeeps(a, pageSize, bound, top);
  }

  lemma SkipKeeps(a: Alloc, pageSize: PageSize, bound: nat)
    requires Inv(a, pageSize, bound)
    ensures Inv(a.(nextSeq := a.nextSeq + 1), pageSize, bound)
  {
    var a' := a.(nextSeq := a.nextSeq + 1);
    forall i | 0 <= i < |a'.spans|
      ensures SpanFits(a', pageSize, a'.spans[i])
    {
      assert SpanFits(a, pageSize, a.spans[i]);
    }
  }

  lemma {:induction false} RewriteExtends(a: Alloc, live: nat, pageSize: PageSize)
    ensures a.spans <= Rewrite(a, live, pageSize).spans
    decreases live
  {
    if live > 0 {
      RewriteExtends(a, live - 1, pageSize);
    }
  }

  // ---- runs

  ghost predicate Run(a: Alloc, pageSize: PageSize, maxSegmentSize: nat, maxPages: nat, ops: seq<AllocOp>, end: Alloc)
    decreases |ops|
  {
    if ops == [] then
      end == a
    else
      && (a.active.Some? ==> Active(a)) && Admits(a, pageSize, maxPages, ops[0])
      && Run(Step(a, pageSize, maxSegmentSize, ops[0]), pageSize, maxSegmentSize, maxPages, ops[1..], end)
  }

  lemma {:induction false} RunKeeps(
    a: Alloc, pageSize: PageSize, maxSegmentSize: nat, maxPages: nat, ops: seq<AllocOp>, end: Alloc)
    requires Inv(a, pageSize, Bound(pageSize, maxSegmentSize, maxPages))
    requires Run(a, pageSize, maxSegmentSize, maxPages, ops, end)
    ensures Inv(end, pageSize, Bound(pageSize, maxSegmentSize, maxPages))
    decreases |ops|
  {
    if ops != [] {
      StepKeeps(a, pageSize, maxSegmentSize, maxPages, ops[0]);
      RunKeeps(Step(a, pageSize, maxSegmentSize, ops[0]), pageSize, maxSegmentSize, maxPages, ops[1..], end);
    }
  }

  /**
   Over any run of writes, rolls, rewrites, deletions and restarts: page spans are
   aligned and pairwise disjoint, and no segment outgrows the bound.
   */
  lemma ReachableAllocations(pageSize: PageSize, maxSegmentSize: nat, maxPages: nat, ops: seq<AllocOp>, end: Alloc)
    requires Run(EMPTY_ALLOC, pageSize, maxSegmentSize, maxPages, ops, end)
    ensures forall i :: 0 <= i < |end.spans| ==> Aligned(pageSize, end.spans[i].off)
    ensures forall i, j :: 0 <= i < j < |end.spans| ==> Apart(end.spans[i], end.spans[j])
    ensures forall id :: id in end.sizes ==> end.sizes[id] <= Bound(pageSize, maxSegmentSize, maxPages)
  {
    RunKeeps(EMPTY_ALLOC, pageSize, maxSegmentSize, maxPages, ops, end);
    forall i | 0 <= i < |end.spans|
      ensures Aligned(pageSize, end.spans[i].off)
    {
      assert SpanFits(end, pageSize, end.spans[i]);
    }
  }

  /** A segment file that a step creates has an id no segment ever had, whatever was deleted or reopened before. */
  lemma NewIdsAreNew(a: Alloc, pageSize: PageSize, maxSegmentSize: nat, maxPages: nat, op: AllocOp, id: nat)
    requires Inv(a, pageSize, Bound(pageSize, maxSegmentSize, maxPages)) && Admits(a, pageSize, maxPages, op)
    requires var a' := Step(a, pageSize, maxSegmentSize, op); id in a'.sizes && id !in a.sizes
    ensures id !in a.created
  {
    match op
    case WriteChunk(pages) =>
      var e := EnsureActive(a);
      assert id == a.nextSeq || id == e.nextSeq;
    case Compact(source, live, deleted) =>
      TimesMono(0, live, pageSize);
      RewriteKeeps(a, pageSize, Bound(pageSize, maxSegmentSize, maxPages), live);
    case FailedRewrite =>
    case Reopen(top) =>
  }

  ghost predicate NeverAbove(pageSize: PageSize, maxSegmentSize: nat, maxPages: nat, limit: int) {
    forall ops, end :: Run(EMPTY_ALLOC, pageSize, maxSegmentSize, maxPages, ops, end) ==>
      forall id :: id in end.sizes ==> end.sizes[id] <= limit
  }

  /**
   The bound of one maximal chunk above MaxSegmentSize - 1 holds on every run exactly
   if the limit leaves room for the file header.
   */
  lemma NominalBoundIff(pageSize: PageSize, maxSegmentSize: nat, maxPages: nat)
    requires maxPages >= 1
    ensures NeverAbove(pageSize, maxSegmentSize, maxPages, maxSegmentSize - 1 + maxPages * pageSize)
            <==> maxSegmentSize > SEG_HEADER
  {
    if maxSegmentSize > SEG_HEADER {
      forall ops, end | Run(EMPTY_ALLOC, pageSize, maxSegmentSize, maxPages, ops, end)
        ensures forall id :: id in end.sizes ==> end.sizes[id] <= maxSegmentSize - 1 + maxPages * pageSize
      {
        ReachableAllocations(pageSize, maxSegmentSize, maxPages, ops, end);
      }
    } else {
      var a := EMPTY_ALLOC;
      var op := WriteChunk(maxPages);
      var end := Step(a, pageSize, maxSegmentSize, op);
      assert Run(end, pageSize, maxSegmentSize, maxPages, [op][1..], end);
      assert Run(a, pageSize, maxSegmentSize, maxPages, [op], end);
      assert end.active.value in end.sizes
          && end.sizes[end.active.value] == SEG_HEADER + maxPages * pageSize;
    }
  }
}

/** The engine's own fields, changed step by step as the original changes them. */
module AllocatorEngine {
  import opened Base
  import opened PageFormat
  import opened Allocation

  class Engine {
    const pageSize: PageSize
    const maxSegmentSize: nat
    var active: Option<nat>
    var nextSeq: nat
    var sizes: map<nat, nat>
    ghost var spans: seq<Span>
    ghost var created: set<nat>

    ghost function State(): Alloc
      reads this
    {
      Alloc(active, nextSeq, sizes, spans, created)
    }

    constructor (pageSize: PageSize, maxSegmentSize: nat)
      ensures State() == EMPTY_ALLOC && this.pageSize == pageSize && this.maxSegmentSize == maxSegmentSize
    {
      this.pageSize := pageSize;
      this.maxSegmentSize := maxSegmentSize;
      active, nextSeq, sizes, spans, created := None, 1, map[], [], {};
    }

    method CreateSegFile(id: nat)
      modifies this`sizes, this`created
      ensures State() == CreateFile(old(State()), id)
    {
      sizes := sizes[id := SEG_HEADER];
      created := created + {id};
    }

    method NewSegment()
      modifies this
      ensures State() == NewActive(old(State()))
    {
      CreateSegFile(nextSeq);
      active := Some(nextSeq);
      nextSeq := nextSeq + 1;
    }

    /** WriteBlob's placement of one chunk: ensureActive, rollIfNeeded, then one page after the other. */
    method WriteChunk(pages: nat) returns (seg: nat, off: nat)
      requires active.Some? ==> Active(State())
      modifies this
      ensures State() == Write(old(State()), pages, pageSize, maxSegmentSize)
      ensures spans == old(spans) + [Span(seg, off, pages * pageSize)]
    {
      if active == None {
        NewSegment();
      }
      if sizes[active.value] >= maxSegmentSize {
        NewSegment();
      }
      ghost var before := State();
      seg := active.value;
      off := sizes[seg];
      var end := off;
      var n := 0;
      while n < pages
        invariant 0 <= n <= pages && end == off + n * pageSize
        invariant State() == before
      {
        end := end + pageSize;
        n := n + 1;
      }
      sizes := sizes[seg := end];
      spans := spans + [Span(seg, off, pages * pageSize)];
    }

    /**
     RewriteSegment's target file; refused for the active segment. The flags are those
     of the source's pages in order; a flagged page is skipped, any other copied.
     */
    method RewriteSegment(source: nat, deleted: seq<bool>) returns (ok: bool)
      modifies this
      ensures ok <==> old(active) != Some(source)
      ensures State() == if ok then Rewrite(old(State()), CountLive(deleted), pageSize) else old(State())
    {
      if active == Some(source) {
        return false;
      }
      var newSeq := nextSeq;
      nextSeq := nextSeq + 1;
      CreateSegFile(newSeq);
      var i := 0;
      while i < |deleted|
        invariant 0 <= i <= |deleted| && newSeq in sizes
        invariant State() == Rewrite(old(State()), CountLive(deleted[..i]), pageSize)
      {
        PrefixSnoc(deleted, i);
        if !deleted[i] {
          spans := spans + [Span(newSeq, sizes[newSeq], pageSize)];
          sizes := sizes[newSeq := sizes[newSeq] + pageSize];
        }
        i := i + 1;
      }
      assert deleted[..i] == deleted;
      ok := true;
    }

    /** highestSegSeq and Open. */
    method Reopen()
      modifies this
      ensures exists top :: IsHighest(old(sizes), top) && State() == Resume(old(State()), top)
    {
      var highest := 0;
      var left := sizes.Keys;
      while left != {}
        invariant left <= sizes.Keys && State() == old(State())
        invariant forall id :: id in sizes && id !in left ==> id <= highest
        invariant highest == 0 || highest in sizes
        decreases left
      {
        var id :| id in left;
        if id > highest {
          highest := id;
        }
        left := left - {id};
      }
      if highest > 0 {
        active, nextSeq := Some(highest), highest + 1;
      } else {
        assert forall id :: id in sizes ==> id == highest;
        assert highest in sizes || sizes == map[];
        active, nextSeq := None, 1;
      }
      assert IsHighest(old(sizes), highest);
    }
  }
}
