/**
 The store's two levels of read/write locks. A lock is held by whoever's position in
 its operation says so. As in Go's sync.RWMutex a writer first announces itself, which
 keeps new readers out, and then waits for the readers inside to leave.
 */
module Guards {
  import opened Base

  datatype Op = Plain | Shared(ns: string) | Exclusive(ns: string)

  /** Where a client stands; one that is in no operation has no entry. */
  datatype Pc =
    | WantStore(op: Op)            // in s.mu.RLock
    | Checking(op: Op)             // holds the store's read guard, closed flag not looked at yet
    | InPlain                      // inside an operation that needs no engine
    | WantNs(ns: string)           // in the namespace lock's RLock
    | InShared(ns: string)         // inside a shared operation, or an open reader
    | WantNsLock(ns: string)       // about to announce itself on the namespace lock
    | PendingNs(ns: string)        // announced, waiting for the namespace's readers
    | InExclusive(ns: string)      // inside a segment rewrite
    | Leaving                      // namespace guard released, store guard not yet
    | WantClose                    // about to announce itself on the store lock
    | PendingClose                 // announced, waiting for the store's readers
    | InClose                      // tearing down

  datatype State = State(pcs: map<nat, Pc>, engines: set<string>, closed: bool)

  /** Holds the store's read guard. */
  predicate HoldsStore(pc: Pc) {
    pc.Checking? || pc.InPlain? || pc.WantNs? || pc.InShared? || pc.WantNsLock? || pc.PendingNs? || pc.InExclusive?
    || pc.Leaving?
  }

  /** Announced on, or holding, the store's write lock. */
  predicate WritesStore(pc: Pc) {
    pc.PendingClose? || pc.InClose?
  }

  predicate WritesNs(pc: Pc, ns: string) {
    (pc.PendingNs? || pc.InExclusive?) && pc.ns == ns
  }

  ghost predicate NoneWritesStore(s: State) {
    forall c :: c in s.pcs ==> !WritesStore(s.pcs[c])
  }

  ghost predicate NoneHoldsStore(s: State) {
    forall c :: c in s.pcs ==> !HoldsStore(s.pcs[c])
  }

  ghost predicate NoneWritesNs(s: State, ns: string) {
    forall c :: c in s.pcs ==> !WritesNs(s.pcs[c], ns)
  }

  ghost predicate NoneReadsNs(s: State, ns: string) {
    forall c :: c in s.pcs ==> s.pcs[c] != InShared(ns)
  }

  // ---- steps

  /** The next step of a client that is in an operation is possible now. */
  ghost predicate CanStep(s: State, c: nat)
    requires c in s.pcs
  {
    match s.pcs[c]
    case WantStore(_) => NoneWritesStore(s)
    case WantNs(ns) => NoneWritesNs(s, ns)
    case WantNsLock(ns) => NoneWritesNs(s, ns)
    case PendingNs(ns) => NoneReadsNs(s, ns)
    case WantClose => NoneWritesStore(s)
    case PendingClose => NoneHoldsStore(s)
    case _ => true
  }

  /** What the step does to the client; None ends its operation. */
  function After(s: State, pc: Pc): Option<Pc> {
    match pc
    case WantStore(op) => Some(Checking(op))
    case Checking(op) =>
      if s.closed then None else (
        match op
        case Plain => Some(InPlain)
        case Shared(ns) => if ns in s.engines then Some(WantNs(ns)) else None
        case Exclusive(ns) => if ns in s.engines then Some(WantNsLock(ns)) else None)
    case InPlain => None
    case WantNs(ns) => Some(InShared(ns))
    case InShared(_) => Some(Leaving)
    case WantNsLock(ns) => Some(PendingNs(ns))
    case PendingNs(ns) => Some(InExclusive(ns))
    case InExclusive(_) => Some(Leaving)
    case Leaving => None
    case WantClose => Some(PendingClose)
    case PendingClose => Some(InClose)
    case InClose => None
  }

  function Step(s: State, c: nat): State
    requires c in s.pcs
  {
    var next := After(s, s.pcs[c]);
    State(if next.Some? then s.pcs[c := next.value] else s.pcs - {c}, s.engines, s.closed || s.pcs[c].InClose?)
  }

  /** A client in no operation starts one: `None` stands for Close. */
  function Begin(s: State, c: nat, op: Option<Op>): State {
    s.(pcs := s.pcs[c := if op.Some? then WantStore(op.value) else WantClose])
  }

  datatype Action = Start(client: nat, op: Option<Op>) | Advance(client: nat) | Register(ns: string)

  /** A client holds at most one operation. CreateNamespace adds an engine at any time. */
  ghost predicate Enabled(s: State, a: Action) {
    match a
    case Start(c, _) => c !in s.pcs
    case Advance(c) => c in s.pcs && CanStep(s, c)
    case Register(_) => true
  }

  ghost function Next(s: State, a: Action): State
    requires Enabled(s, a)
  {
    match a
    case Start(c, op) => Begin(s, c, op)
    case Advance(c) => Step(s, c)
    case Register(ns) => s.(engines := s.engines + {ns})
  }

  // ---- what always holds

  /** At most one client has announced itself on a namespace's lock, and one that is inside has it to itself. */
  ghost predicate NsInv(s: State) {
    forall c, d :: c in s.pcs && d in s.pcs && c != d ==>
      (forall ns :: !(WritesNs(s.pcs[c], ns) && WritesNs(s.pcs[d], ns)))
      && (s.pcs[c].InExclusive? ==> s.pcs[d] != InShared(s.pcs[c].ns))
  }

  /** The same for the store's lock; and once it is closed nobody is inside any more. */
  ghost predicate StoreInv(s: State) {
    && (forall c, d :: c in s.pcs && d in s.pcs && c != d ==>
          !(WritesStore(s.pcs[c]) && WritesStore(s.pcs[d])) && !(s.pcs[c].InClose? && HoldsStore(s.pcs[d])))
    && (s.closed ==> forall c :: c in s.pcs && HoldsStore(s.pcs[c]) ==> s.pcs[c].Checking?)
  }

  ghost predicate Inv(s: State) {
    NsInv(s) && StoreInv(s)
  }
}

module GuardRuns {
  import opened Base
  import opened Guards

  /** Facts about one client's change that do not depend on the others. */
  lemma Change(s: State, c: nat)
    requires c in s.pcs && CanStep(s, c)
    ensures var s' := Step(s, c);
            && (forall d :: d != c ==> (d in s'.pcs <==> d in s.pcs) && (d in s.pcs ==> s'.pcs[d] == s.pcs[d]))
            && (c in s'.pcs <==> After(s, s.pcs[c]).Some?)
            && (c in s'.pcs ==> s'.pcs[c] == After(s, s.pcs[c]).value)
  {
  }

  lemma NsStep(s: State, c: nat)
    requires Inv(s) && c in s.pcs && CanStep(s, c)
    ensures NsInv(Step(s, c))
  {
    var s' := Step(s, c);
    Change(s, c);
    forall d | d in s'.pcs && c in s'.pcs && d != c
      ensures !exists ns :: WritesNs(s'.pcs[c], ns) && WritesNs(s'.pcs[d], ns)
      ensures s'.pcs[c].InExclusive? ==> s'.pcs[d] != InShared(s'.pcs[c].ns)
      ensures s'.pcs[d].InExclusive? ==> s'.pcs[c] != InShared(s'.pcs[d].ns)
    {
      NsPair(s, c, d);
    }
  }

  lemma NsPair(s: State, c: nat, d: nat)
    requires Inv(s) && c in s.pcs && d in s.pcs && c != d && CanStep(s, c) && After(s, s.pcs[c]).Some?
    ensures var pc, other := After(s, s.pcs[c]).value, s.pcs[d];
            && (forall ns :: !(WritesNs(pc, ns) && WritesNs(other, ns)))
            && (pc.InExclusive? ==> other != InShared(pc.ns)) && (other.InExclusive? ==> pc != InShared(other.ns))
  {
    var other := s.pcs[d];
    match s.pcs[c]
    case PendingNs(ns) =>
      assert WritesNs(s.pcs[c], ns);
    case WantNs(ns) =>
      assert !WritesNs(other, ns);
    case WantNsLock(ns) =>
      assert !WritesNs(other, ns);
    case _ =>
  }

  lemma StoreStep(s: State, c: nat)
    requires Inv(s) && c in s.pcs && CanStep(s, c)
    ensures StoreInv(Step(s, c))
  {
    Change(s, c);
  }

  /** Every step of every client, and every new operation, keeps both locks' rules. */
  lemma NextKeeps(s: State, a: Action)
    requires Inv(s) && Enabled(s, a)
    ensures Inv(Next(s, a))
  {
    match a
    case Start(c, op) =>
    case Advance(c) =>
      NsStep(s, c);
      StoreStep(s, c);
    case Register(_) =>
  }

  ghost predicate Run(s: State, actions: seq<Action>, end: State)
    decreases |actions|
  {
    if actions == [] then end == s else Enabled(s, actions[0]) && Run(Next(s, actions[0]), actions[1..], end)
  }

  lemma {:induction false} RunKeeps(s: State, actions: seq<Action>, end: State)
    requires Inv(s) && Run(s, actions, end)
    ensures Inv(end)
    decreases |actions|
  {
    if actions != [] {
      NextKeeps(s, actions[0]);
      RunKeeps(Next(s, actions[0]), actions[1..], end);
    }
  }

  /**
   In every reachable state: an exclusive operation has its namespace to itself, and
   Close tears down only when no operation or open reader is left, for good.
   */
  lemma ReachableGuards(engines: set<string>, actions: seq<Action>, end: State)
    requires Run(State(map[], engines, false), actions, end)
    ensures forall c, d :: c in end.pcs && d in end.pcs && c != d && end.pcs[c].InExclusive? ==>
              end.pcs[d] != InShared(end.pcs[c].ns) && end.pcs[d] != InExclusive(end.pcs[c].ns)
    ensures forall c, d :: c in end.pcs && d in end.pcs && end.pcs[c].InClose? ==>
              !end.pcs[d].InPlain? && !end.pcs[d].InShared? && !end.pcs[d].InExclusive?
    ensures end.closed ==> forall d :: d in end.pcs ==>
              !end.pcs[d].InPlain? && !end.pcs[d].InShared? && !end.pcs[d].InExclusive?
  {
    RunKeeps(State(map[], engines, false), actions, end);
    forall c, d | c in end.pcs && d in end.pcs && c != d && end.pcs[c].InExclusive?
      ensures end.pcs[d] != InExclusive(end.pcs[c].ns)
    {
      var ns := end.pcs[c].ns;
      assert WritesNs(end.pcs[c], ns);
      assert !WritesNs(end.pcs[d], ns);
    }
  }

  /** An exclusive operation keeps nobody out of another namespace. */
  lemma OtherNamespacesProceed(s: State, c: nat, ns: string)
    requires c in s.pcs && s.pcs[c] == WantNs(ns)
    requires forall d :: d in s.pcs && (s.pcs[d].PendingNs? || s.pcs[d].InExclusive?) ==> s.pcs[d].ns != ns
    ensures CanStep(s, c)
  {
  }

  // ---- no deadlock

  ghost predicate SomeCan(s: State) {
    exists c :: c in s.pcs && CanStep(s, c)
  }

  /** Inside an operation, or past its last lock, a client can always go on. */
  predicate Free(pc: Pc) {
    pc.Checking? || pc.InPlain? || pc.InShared? || pc.InExclusive? || pc.Leaving? || pc.InClose?
  }

  /** Nobody is free: then some namespace-lock waiter can go on, if there is one. */
  lemma NamespaceWaiterCan(s: State, c: nat)
    requires c in s.pcs && forall d :: d in s.pcs ==> !Free(s.pcs[d])
    requires s.pcs[c].WantNs? || s.pcs[c].WantNsLock? || s.pcs[c].PendingNs?
    ensures SomeCan(s)
  {
    if d :| d in s.pcs && s.pcs[d].PendingNs? {
      assert CanStep(s, d);
    } else {
      assert CanStep(s, c);
    }
  }

  /** Nobody is free and nobody waits for a namespace lock: then some store-lock waiter can go on. */
  lemma StoreWaiterCan(s: State, c: nat)
    requires c in s.pcs && forall d :: d in s.pcs ==> !Free(s.pcs[d])
    requires forall d :: d in s.pcs ==> !s.pcs[d].WantNs? && !s.pcs[d].WantNsLock? && !s.pcs[d].PendingNs?
    ensures SomeCan(s)
  {
    if d :| d in s.pcs && s.pcs[d].PendingClose? {
      assert CanStep(s, d);
    } else {
      assert CanStep(s, c);
    }
  }

  /**
   As long as any operation is going on, some client in one can take its next step,
   pending writers or not: the locks alone never leave everyone waiting.
   */
  lemma NeverAllBlocked(s: State)
    requires s.pcs != map[]
    ensures SomeCan(s)
  {
    if c :| c in s.pcs && Free(s.pcs[c]) {
      assert CanStep(s, c);
    } else if c :| c in s.pcs && (s.pcs[c].WantNs? || s.pcs[c].WantNsLock? || s.pcs[c].PendingNs?) {
      NamespaceWaiterCan(s, c);
    } else {
      var c :| c in s.pcs;
      StoreWaiterCan(s, c);
    }
  }

  // ---- a reader that is never closed

  ghost predicate Idle(actions: seq<Action>, c: nat) {
    forall i :: 0 <= i < |actions| ==> actions[i] != Advance(c)
  }

  /** While an open reader stays open, no rewrite of its namespace begins and no Close tears anything down. */
  lemma {:induction false} LeakedReaderBlocks(s: State, actions: seq<Action>, end: State, c: nat, ns: string)
    requires Inv(s) && Run(s, actions, end) && Idle(actions, c)
    requires c in s.pcs && s.pcs[c] == InShared(ns) && !s.closed
    ensures c in end.pcs && end.pcs[c] == InShared(ns) && !end.closed
    ensures forall d :: d in end.pcs ==> end.pcs[d] != InExclusive(ns) && !end.pcs[d].InClose?
    decreases |actions|
  {
    if actions == [] {
      assert HoldsStore(s.pcs[c]);
    } else {
      var a := actions[0];
      assert a != Advance(c);
      NextKeeps(s, a);
      StaysOpen(s, a, c, ns);
      LeakedReaderBlocks(Next(s, a), actions[1..], end, c, ns);
    }
  }

  lemma StaysOpen(s: State, a: Action, c: nat, ns: string)
    requires Inv(s) && Enabled(s, a) && a != Advance(c)
    requires c in s.pcs && s.pcs[c] == InShared(ns) && !s.closed
    ensures var s' := Next(s, a); c in s'.pcs && s'.pcs[c] == InShared(ns) && !s'.closed
  {
    assert HoldsStore(s.pcs[c]);
    match a
    case Advance(d) => Change(s, d);
    case _ =>
  }
}
