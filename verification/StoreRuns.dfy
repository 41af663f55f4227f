/** Runs of the store machine, whatever the interleaving: what holds in every reachable state. */
module StoreRuns {
  import opened Base
  import opened Records
  import opened Disk
  import opened IndexSpec
  import opened DoubleEntry
  import opened ReplaySpec
  import opened StoreMachine
  import opened StoreInvariant
  import opened StoreSteps
  import opened ReopenSpec
  import opened Reopening

  /** The chunks that reopens along the run have left in disorder; a later reopen can put one right again. */
  function Tainted(cfg: Config, actions: seq<Action>): Disorder
    requires cfg.capacity >= 1 && Runs(cfg, actions)
    decreases |actions|
  {
    if actions == [] then
      IN_ORDER
    else
      var init := actions[..|actions| - 1];
      var before := Tainted(cfg, init);
      if actions[|actions| - 1].Crash? then BadAfterCrash(After(cfg, init), before) else before
  }

  /** In every reachable state, whatever the interleaving. */
  lemma {:induction false} ReachableInv(cfg: Config, actions: seq<Action>)
    requires ValidConfig(cfg) && SinglePage(cfg) && Runs(cfg, actions)
    ensures Inv(cfg, After(cfg, actions), Tainted(cfg, actions))
    decreases |actions|
  {
    if actions == [] {
      assert forall c :: Gap(EMPTY_INDEX, c) == 0;
    } else {
      var init, last := actions[..|actions| - 1], actions[|actions| - 1];
      ReachableInv(cfg, init);
      if last.Crash? {
        CrashKeeps(cfg, After(cfg, init), Tainted(cfg, init));
      } else {
        StepKeeps(cfg, After(cfg, init), last, Tainted(cfg, init));
      }
    }
  }

  /** Every reopen of the run finds all it registers in order. */
  predicate CleanReopens(cfg: Config, actions: seq<Action>)
    requires cfg.capacity >= 1 && Runs(cfg, actions)
    decreases |actions|
  {
    actions == [] ||
    var init := actions[..|actions| - 1];
    CleanReopens(cfg, init) && (actions[|actions| - 1].Crash? ==> Disordered(After(cfg, init)) == IN_ORDER)
  }

  lemma {:induction false} CleanMeansUntainted(cfg: Config, actions: seq<Action>)
    requires cfg.capacity >= 1 && Runs(cfg, actions) && CleanReopens(cfg, actions)
    ensures Tainted(cfg, actions) == IN_ORDER
    decreases |actions|
  {
    if actions != [] {
      var init := actions[..|actions| - 1];
      CleanMeansUntainted(cfg, init);
      NothingAdded(After(cfg, init));
    }
  }

  lemma {:induction false} RunsPrefix(cfg: Config, actions: seq<Action>, n: nat)
    requires cfg.capacity >= 1 && Runs(cfg, actions) && n <= |actions|
    ensures Runs(cfg, actions[..n])
    decreases |actions|
  {
    if n < |actions| {
      RunsPrefix(cfg, actions[..|actions| - 1], n);
      assert actions[..|actions| - 1][..n] == actions[..n];
    } else {
      assert actions[..n] == actions;
    }
  }

  /** One more action. */
  lemma RunsSnoc(cfg: Config, actions: seq<Action>, a: Action)
    requires cfg.capacity >= 1 && Runs(cfg, actions) && Enabled(After(cfg, actions), a)
    ensures Runs(cfg, actions + [a]) && After(cfg, actions + [a]) == Step(cfg, After(cfg, actions), a)
  {
    assert (actions + [a])[..|actions|] == actions;
  }

  /** The state after the first `n` actions. */
  function StateAt(cfg: Config, actions: seq<Action>, n: nat): Store
    requires cfg.capacity >= 1 && Runs(cfg, actions) && n <= |actions|
  {
    RunsPrefix(cfg, actions, n);
    After(cfg, actions[..n])
  }

  lemma StateAtNext(cfg: Config, actions: seq<Action>, n: nat)
    requires cfg.capacity >= 1 && Runs(cfg, actions) && n < |actions|
    ensures Enabled(StateAt(cfg, actions, n), actions[n])
    ensures StateAt(cfg, actions, n + 1) == Step(cfg, StateAt(cfg, actions, n), actions[n])
  {
    RunsPrefix(cfg, actions, n + 1);
    assert actions[..n + 1][..n] == actions[..n];
  }

  predicate NoCrash(actions: seq<Action>, n: nat) {
    forall k :: n <= k < |actions| ==> !actions[k].Crash?
  }

  lemma {:induction false} TaintedSame(cfg: Config, actions: seq<Action>, n: nat)
    requires cfg.capacity >= 1 && Runs(cfg, actions) && n <= |actions| && NoCrash(actions, n)
    requires Runs(cfg, actions[..n])
    ensures Tainted(cfg, actions) == Tainted(cfg, actions[..n])
    decreases |actions|
  {
    if n < |actions| {
      var init := actions[..|actions| - 1];
      assert init[..n] == actions[..n];
      TaintedSame(cfg, init, n);
    } else {
      assert actions[..n] == actions;
    }
  }

  /** No step changes a page but to flag it, and no position is handed out twice. */
  lemma StepPagesStay(cfg: Config, s: Store, a: Action)
    requires cfg.capacity >= 1 && Enabled(s, a) && ValidDisk(s.disk)
    requires a.DropSegment? ==> s.procs[a.p].oldSeg < s.disk.nextSeg
    ensures PagesStay(s.disk, Step(cfg, s, a).disk)
  {
    match a
    case Put(p, key, content, rolls) => WritingStays(cfg, s.disk, cfg.split(content), rolls);
    case RejectedPut(content, rolls) => WritingStays(cfg, s.disk, cfg.split(content), rolls);
    case AbortedPut(content, n, rolls) =>
      var pieces := cfg.split(content);
      WritingStays(cfg, s.disk, if n < |pieces| then pieces[..n] else pieces, rolls);
    case Rewrite(p, seg) =>
      RewriteDisk(cfg, s, p, seg);
      ExtendsPagesStay(s.disk, Step(cfg, s, a).disk);
    case Crash => ReopenKeepsIds(s.disk);
    case _ =>
  }

  lemma WritingStays(cfg: Config, d: Disk, pieces: seq<Bytes>, rolls: seq<bool>)
    requires cfg.capacity >= 1 && ValidDisk(d)
    ensures PagesStay(d, WritePieces(cfg, d, pieces, rolls).0)
  {
    WritePiecesHolds(cfg, d, pieces, rolls);
    ExtendsPagesStay(d, WritePieces(cfg, d, pieces, rolls).0);
  }

  lemma PagesStayTrans(d0: Disk, d1: Disk, d2: Disk)
    requires PagesStay(d0, d1) && PagesStay(d1, d2)
    ensures PagesStay(d0, d2)
  {
    forall l | Used(d0, l)
      ensures Used(d2, l) && (l in d2.pages ==> l in d0.pages && SamePage(d0.pages[l], d2.pages[l]))
    {
      assert Used(d1, l);
    }
  }

  /** Over any run, from any state of it. */
  lemma {:induction false} RunPagesStay(cfg: Config, actions: seq<Action>, n: nat)
    requires ValidConfig(cfg) && SinglePage(cfg) && Runs(cfg, actions) && n <= |actions|
    requires Runs(cfg, actions[..n])
    ensures PagesStay(After(cfg, actions[..n]).disk, After(cfg, actions).disk)
    decreases |actions|
  {
    if n < |actions| {
      var init, last := actions[..|actions| - 1], actions[|actions| - 1];
      assert init[..n] == actions[..n];
      RunPagesStay(cfg, init, n);
      ReachableInv(cfg, init);
      var s := After(cfg, init);
      if last.DropSegment? {
        assert ProcOk(cfg, s, last.p, Tainted(cfg, init));
      }
      StepPagesStay(cfg, s, last);
      PagesStayTrans(After(cfg, actions[..n]).disk, s.disk, After(cfg, actions).disk);
    } else {
      assert actions[..n] == actions;
    }
  }
}
