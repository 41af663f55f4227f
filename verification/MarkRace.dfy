/**
 mark under contention: any number of callers, each step a single atomic load or
 compare-and-swap on one word.
 */
module MarkRace {
  import opened Base
  import opened Words
  import opened BitmapWords

  /** A call is about to load its word, or to swap the value it loaded; `base` is the word's popcount when it began. */
  datatype Call =
    | Load(block: nat, failures: nat, base: nat)
    | Swap(block: nat, seen: Word, failures: nat, base: nat)

  /** `begun` and `finished` record the in-range blocks of all calls so far. */
  datatype Race = Race(words: seq<Word>, calls: map<nat, Call>, begun: set<nat>, finished: set<nat>)

  datatype Action = Begin(id: nat, block: int) | Step(id: nat)

  predicate Enabled(s: Race, a: Action) {
    match a
    case Begin(id, _) => id !in s.calls
    case Step(id) => id in s.calls && s.calls[id].block < 64 * |s.words|
  }

  function Finish(s: Race, id: nat): Race
    requires id in s.calls
  {
    s.(calls := s.calls - {id}, finished := s.finished + {s.calls[id].block})
  }

  /** The loop body, cut at its two atomic operations. An index outside the `count` blocks returns at once. */
  function Next(s: Race, count: nat, a: Action): Race
    requires Enabled(s, a) && count <= 64 * |s.words|
  {
    match a
    case Begin(id, block) =>
      if block < 0 || block >= count then s
      else s.(calls := s.calls[id := Load(block, 0, OnesCount(s.words[block / 64]))], begun := s.begun + {block})
    case Step(id) =>
      match s.calls[id]
      case Load(block, failures, base) =>
        var word := s.words[block / 64];
        if word[block % 64] then Finish(s, id)
        else s.(calls := s.calls[id := Swap(block, word, failures, base)])
      case Swap(block, seen, failures, base) =>
        if s.words[block / 64] == seen then
          Finish(s.(words := s.words[block / 64 := Or(seen, OneBit(block % 64))]), id)
        else
          s.(calls := s.calls[id := Load(block, failures + 1, base)])
  }

  predicate Subset(a: Word, b: Word) {
    forall i :: 0 <= i < 64 ==> a[i] ==> b[i]
  }

  /** Every set bit stays set. */
  predicate Grows(a: seq<Word>, b: seq<Word>) {
    |a| == |b| && forall w :: 0 <= w < |a| ==> Subset(a[w], b[w])
  }

  lemma {:induction false} OnesSubset(a: Word, b: Word, n: nat)
    requires Subset(a, b) && n <= 64
    ensures Ones(a, n) <= Ones(b, n)
    ensures Ones(a, n) == Ones(b, n) ==> forall i :: 0 <= i < n ==> a[i] == b[i]
    decreases n
  {
    if n > 0 {
      OnesSubset(a, b, n - 1);
    }
  }

  /** A word that changed without losing a bit has gained one. */
  lemma Gained(a: Word, b: Word)
    requires Subset(a, b) && a != b
    ensures OnesCount(a) < OnesCount(b)
  {
    OnesSubset(a, b, 64);
    assert Ones(a, 64) == Ones(b, 64) ==> a == b;
  }

  lemma {:induction false} UnsetBit(w: Word, bit: nat, n: nat)
    requires bit < n <= 64 && !w[bit]
    ensures Ones(w, n) < n
    decreases n
  {
    if bit < n - 1 {
      UnsetBit(w, bit, n - 1);
    }
  }

  /** What holds of a call in flight; each failure is paid for by a bit its word gained since the call began. */
  predicate CallOk(words: seq<Word>, count: nat, c: Call)
    requires count <= 64 * |words|
  {
    && c.block < count
    && match c
       case Load(block, failures, base) => base + failures <= OnesCount(words[block / 64])
       case Swap(block, seen, failures, base) =>
         !seen[block % 64] && Subset(seen, words[block / 64]) && base + failures <= OnesCount(seen)
  }

  ghost predicate Inv(s: Race, count: nat, initial: seq<Word>) {
    && count <= 64 * |s.words| && Grows(initial, s.words)
    && (forall id :: id in s.calls ==> CallOk(s.words, count, s.calls[id]) && s.calls[id].block in s.begun)
    && (forall i :: i in s.finished ==> i < count && MarkAt(s.words, i))
    && (forall i :: i in s.begun ==> i in s.finished || exists id :: id in s.calls && s.calls[id].block == i)
    && (forall i :: 0 <= i < 64 * |s.words| && MarkAt(s.words, i) ==> MarkAt(initial, i) || (i in s.begun && i < count))
  }

  lemma GrownMark(a: seq<Word>, b: seq<Word>, i: nat)
    requires Grows(a, b) && i < 64 * |a| && MarkAt(a, i)
    ensures MarkAt(b, i)
  {
  }

  lemma OneMarkMore(words: seq<Word>, block: nat)
    requires block < 64 * |words|
    ensures var words' := words[block / 64 := Or(words[block / 64], OneBit(block % 64))];
            && Grows(words, words')
            && forall i :: 0 <= i < 64 * |words| ==> (MarkAt(words', i) <==> i == block || MarkAt(words, i))
  {
    var words' := words[block / 64 := Or(words[block / 64], OneBit(block % 64))];
    forall i | 0 <= i < 64 * |words|
      ensures MarkAt(words', i) <==> i == block || MarkAt(words, i)
    {
      assert i / 64 == block / 64 && i % 64 == block % 64 ==> i == block;
    }
  }

  lemma GrownCall(a: seq<Word>, b: seq<Word>, count: nat, c: Call)
    requires count <= 64 * |a| && Grows(a, b) && CallOk(a, count, c)
    ensures CallOk(b, count, c)
  {
    OnesSubset(a[c.block / 64], b[c.block / 64], 64);
  }

  lemma BeginKeeps(s: Race, count: nat, initial: seq<Word>, id: nat, block: int)
    requires Inv(s, count, initial) && id !in s.calls
    ensures Inv(Next(s, count, Begin(id, block)), count, initial)
  {
    var s' := Next(s, count, Begin(id, block));
    forall i | i in s'.begun
      ensures i in s'.finished || exists k :: k in s'.calls && s'.calls[k].block == i
    {
      if i == block {
        assert s'.calls[id].block == i;
      } else if i !in s.finished {
        var k :| k in s.calls && s.calls[k].block == i;
        assert s'.calls[k].block == i;
      }
    }
  }

  /** A call that leaves its block marked may end. */
  lemma FinishKeeps(s: Race, count: nat, initial: seq<Word>, id: nat)
    requires Inv(s, count, initial) && id in s.calls && MarkAt(s.words, s.calls[id].block)
    ensures Inv(Finish(s, id), count, initial)
  {
    var s' := Finish(s, id);
    forall i | i in s'.begun
      ensures i in s'.finished || exists k :: k in s'.calls && s'.calls[k].block == i
    {
      if i !in s'.finished {
        var k :| k in s.calls && s.calls[k].block == i;
        assert k != id && s'.calls[k].block == i;
      }
    }
  }

  lemma UpdateKeeps(s: Race, count: nat, initial: seq<Word>, id: nat, c: Call)
    requires Inv(s, count, initial) && id in s.calls && c.block == s.calls[id].block && CallOk(s.words, count, c)
    ensures Inv(s.(calls := s.calls[id := c]), count, initial)
  {
    var s' := s.(calls := s.calls[id := c]);
    forall i | i in s'.begun
      ensures i in s'.finished || exists k :: k in s'.calls && s'.calls[k].block == i
    {
      if i !in s.finished {
        var k :| k in s.calls && s.calls[k].block == i;
        assert s'.calls[k].block == i;
      }
    }
  }

  /** Setting one bit that some call asked for. */
  lemma SetKeeps(s: Race, count: nat, initial: seq<Word>, block: nat)
    requires Inv(s, count, initial) && block in s.begun && block < count
    ensures var words' := s.words[block / 64 := Or(s.words[block / 64], OneBit(block % 64))];
            Inv(s.(words := words'), count, initial) && MarkAt(words', block) && Grows(s.words, words')
  {
    var words' := s.words[block / 64 := Or(s.words[block / 64], OneBit(block % 64))];
    OneMarkMore(s.words, block);
    var s' := s.(words := words');
    forall id | id in s'.calls
      ensures CallOk(words', count, s'.calls[id])
    {
      GrownCall(s.words, words', count, s.calls[id]);
    }
  }

  lemma LoadKeeps(s: Race, count: nat, initial: seq<Word>, id: nat)
    requires Inv(s, count, initial) && id in s.calls && s.calls[id].Load?
    ensures var s' := Next(s, count, Step(id)); Inv(s', count, initial) && Grows(s.words, s'.words)
  {
    var c := s.calls[id];
    if s.words[c.block / 64][c.block % 64] {
      FinishKeeps(s, count, initial, id);
    } else {
      UpdateKeeps(s, count, initial, id, Swap(c.block, s.words[c.block / 64], c.failures, c.base));
    }
  }

  /** The compare-and-swap succeeds: the bit is set, and the call returns. */
  lemma SwapSucceeds(s: Race, count: nat, initial: seq<Word>, id: nat)
    requires Inv(s, count, initial) && id in s.calls && s.calls[id].Swap?
    requires s.words[s.calls[id].block / 64] == s.calls[id].seen
    ensures var s' := Next(s, count, Step(id)); Inv(s', count, initial) && Grows(s.words, s'.words)
  {
    var c := s.calls[id];
    SetKeeps(s, count, initial, c.block);
    FinishKeeps(s.(words := s.words[c.block / 64 := Or(c.seen, OneBit(c.block % 64))]), count, initial, id);
  }

  /** It fails: the word has gained a bit since the load, which pays for the failure. */
  lemma SwapFails(s: Race, count: nat, initial: seq<Word>, id: nat)
    requires Inv(s, count, initial) && id in s.calls && s.calls[id].Swap?
    requires s.words[s.calls[id].block / 64] != s.calls[id].seen
    ensures var s' := Next(s, count, Step(id)); Inv(s', count, initial) && Grows(s.words, s'.words)
  {
    var c := s.calls[id];
    Gained(c.seen, s.words[c.block / 64]);
    UpdateKeeps(s, count, initial, id, Load(c.block, c.failures + 1, c.base));
  }

  /** One step keeps everything, and no step ever clears a bit. */
  lemma NextKeeps(s: Race, count: nat, initial: seq<Word>, a: Action)
    requires Inv(s, count, initial) && Enabled(s, a)
    ensures Inv(Next(s, count, a), count, initial) && Grows(s.words, Next(s, count, a).words)
  {
    match a
    case Begin(id, block) => BeginKeeps(s, count, initial, id, block);
    case Step(id) =>
      match s.calls[id] {
        case Load(_, _, _) => LoadKeeps(s, count, initial, id);
        case Swap(block, seen, _, _) =>
          if s.words[block / 64] == seen {
            SwapSucceeds(s, count, initial, id);
          } else {
            SwapFails(s, count, initial, id);
          }
      }
  }

  // ---- runs

  ghost predicate Run(s: Race, count: nat, actions: seq<Action>, end: Race)
    decreases |actions|
  {
    if actions == [] then
      end == s
    else
      && count <= 64 * |s.words| && Enabled(s, actions[0])
      && Run(Next(s, count, actions[0]), count, actions[1..], end)
  }

  lemma {:induction false} RunKeeps(s: Race, count: nat, initial: seq<Word>, actions: seq<Action>, end: Race)
    requires Inv(s, count, initial) && Run(s, count, actions, end)
    ensures Inv(end, count, initial)
    decreases |actions|
  {
    if actions != [] {
      NextKeeps(s, count, initial, actions[0]);
      RunKeeps(Next(s, count, actions[0]), count, initial, actions[1..], end);
    }
  }

  /** Under any interleaving: once all calls have returned, the marked blocks are exactly the initial and the in-range ones. */
  lemma QuiescentMarks(initial: seq<Word>, count: nat, actions: seq<Action>, end: Race)
    requires count <= 64 * |initial| && Run(Race(initial, map[], {}, {}), count, actions, end) && end.calls == map[]
    ensures |end.words| == |initial|
    ensures forall i :: 0 <= i < count ==> (MarkAt(end.words, i) <==> MarkAt(initial, i) || i in end.begun)
  {
    RunKeeps(Race(initial, map[], {}, {}), count, initial, actions, end);
    forall i | 0 <= i < count
      ensures MarkAt(end.words, i) <==> MarkAt(initial, i) || i in end.begun
    {
      if MarkAt(initial, i) {
        GrownMark(initial, end.words, i);
      }
    }
  }

  /**
   A failed swap means the word gained a bit since it was loaded. So a call that fails
   `f` times sees at least `f` bits appear, and no call fails more than 64 times.
   */
  lemma RetriesBounded(initial: seq<Word>, count: nat, actions: seq<Action>, end: Race, id: nat)
    requires count <= 64 * |initial| && Run(Race(initial, map[], {}, {}), count, actions, end) && id in end.calls
    ensures var c := end.calls[id]; c.base + c.failures <= 64
    ensures end.calls[id].Swap? ==> end.calls[id].base + end.calls[id].failures < 64
  {
    RunKeeps(Race(initial, map[], {}, {}), count, initial, actions, end);
    match end.calls[id]
    case Load(_, _, _) =>
    case Swap(block, seen, _, _) => UnsetBit(seen, block % 64, 64);
  }

  /** Every step of a call ends it or uses up some of what is left of its retries. */
  function StepsLeft(c: Call): int {
    match c
    case Load(_, failures, base) => 2 * (64 - base - failures) + 1
    case Swap(_, _, failures, base) => 2 * (64 - base - failures)
  }

  lemma StepsRunOut(s: Race, count: nat, initial: seq<Word>, id: nat)
    requires Inv(s, count, initial) && Enabled(s, Step(id))
    ensures StepsLeft(s.calls[id]) >= 1
    ensures var s' := Next(s, count, Step(id)); id in s'.calls ==> StepsLeft(s'.calls[id]) < StepsLeft(s.calls[id])
  {
    match s.calls[id]
    case Load(_, _, _) =>
    case Swap(block, seen, _, _) => UnsetBit(seen, block % 64, 64);
  }
}
