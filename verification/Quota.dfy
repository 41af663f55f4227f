/**
 Quotas. A put checks the statistics and commits under the namespace's quota
 mutex; deletes, renames and compaction take no such mutex and may commit
 between the check and the commit.
 */
module Quotas {
  import opened Base
  import opened Records
  import opened IndexSpec
  import Runs = IndexRuns

  /** Zero means unlimited in that dimension. */
  datatype Quota = Quota(maxBytes: int, maxBlobCount: int, maxBlobSize: int)

  datatype Dimension = BlobCount | TotalBytes | BlobSize

  /** checkQuota: the first dimension that the incoming blob would exceed. */
  function Check(quota: Option<Quota>, st: Stats, incoming: nat): Option<Dimension> {
    match quota
    case None => None
    case Some(q) =>
      if q.maxBlobCount > 0 && st.blobCount >= q.maxBlobCount then Some(BlobCount)
      else if q.maxBytes > 0 && st.bytesStored + incoming > q.maxBytes then Some(TotalBytes)
      else if q.maxBlobSize > 0 && incoming > q.maxBlobSize then Some(BlobSize)
      else None
  }

  /** A put that has passed the check and holds the mutex. */
  datatype Checked = Checked(ref: RefEntry, blob: BlobEntry, entries: seq<ChunkEntry>)

  datatype State = State(idx: IndexState, holder: Option<Checked>)

  datatype Action =
    | CheckPut(put: Checked)
    | CommitChecked
    | Other(op: Runs.Op)

  predicate Enabled(s: State, a: Action) {
    match a
    case CheckPut(_) => s.holder.None?
    case CommitChecked => s.holder.Some?
    case Other(op) => !op.Put?
  }

  function Step(ns: NsId, quota: Option<Quota>, s: State, a: Action): State
    requires Enabled(s, a)
  {
    match a
    case CheckPut(put) =>
      if Check(quota, StatsOf(s.idx.stats, ns), put.ref.size).None? then s.(holder := Some(put)) else s
    case CommitChecked =>
      var put := s.holder.value;
      State(CommitPut(s.idx, put.ref, put.blob, put.entries).0, None)
    case Other(op) => s.(idx := Runs.Apply(ns, s.idx, op))
  }

  /** A put's ref records the size of the blob, in this namespace. */
  predicate Sized(ns: NsId, put: Checked) {
    put.ref.ns == ns && put.ref.size == put.blob.totalSize
  }

  predicate Within(ns: NsId, quota: Option<Quota>, idx: IndexState) {
    quota.Some? ==>
      var q, st := quota.value, StatsOf(idx.stats, ns);
      && (q.maxBytes > 0 ==> st.bytesStored <= q.maxBytes)
      && (q.maxBlobCount > 0 ==> st.blobCount <= q.maxBlobCount)
      && (q.maxBlobSize > 0 ==> forall k :: k in idx.refs && k.0 == ns ==> idx.refs[k].size <= q.maxBlobSize)
  }

  /** Nothing that commits between check and commit can take away the room that was found. */
  predicate Inv(ns: NsId, quota: Option<Quota>, s: State) {
    && Within(ns, quota, s.idx)
    && (s.holder.Some? ==>
          Sized(ns, s.holder.value) && Check(quota, StatsOf(s.idx.stats, ns), s.holder.value.ref.size).None?)
  }

  lemma StepKeepsQuota(ns: NsId, quota: Option<Quota>, s: State, a: Action)
    requires Inv(ns, quota, s) && Enabled(s, a) && (a.CheckPut? ==> Sized(ns, a.put))
    ensures Inv(ns, quota, Step(ns, quota, s, a))
  {
  }

  function Run(ns: NsId, quota: Option<Quota>, actions: seq<Action>): Option<State>
    decreases |actions|
  {
    if actions == [] then
      Some(State(EMPTY_INDEX, None))
    else
      var s := Run(ns, quota, actions[..|actions| - 1]);
      if s.Some? && Enabled(s.value, actions[|actions| - 1]) then
        Some(Step(ns, quota, s.value, actions[|actions| - 1]))
      else
        None
  }

  /** In every reachable state the stored bytes, the number of blobs and each blob are within the quota. */
  lemma {:induction false} ReachableWithinQuota(ns: NsId, quota: Option<Quota>, actions: seq<Action>)
    requires forall a :: a in actions && a.CheckPut? ==> Sized(ns, a.put)
    ensures var s := Run(ns, quota, actions); s.Some? ==> Inv(ns, quota, s.value)
    decreases |actions|
  {
    if actions != [] {
      var init, last := actions[..|actions| - 1], actions[|actions| - 1];
      assert last in actions && forall a :: a in init ==> a in actions;
      ReachableWithinQuota(ns, quota, init);
      var s := Run(ns, quota, init);
      if s.Some? && Enabled(s.value, last) {
        StepKeepsQuota(ns, quota, s.value, last);
      }
    }
  }

  /**
   The mutex is needed: two puts that check before either commits can both pass
   and end above the limit.
   */
  lemma UnserialisedChecksOvershoot(ns: NsId, first: Checked, second: Checked)
    requires Sized(ns, first) && Sized(ns, second) && first.ref.key != second.ref.key
    ensures var quota := Some(Quota(0, 1, 0));
            var st := StatsOf(EMPTY_INDEX.stats, ns);
            var s1 := CommitPut(EMPTY_INDEX, first.ref, first.blob, first.entries).0;
            var s2 := CommitPut(s1, second.ref, second.blob, second.entries).0;
            && Check(quota, st, first.ref.size).None? && Check(quota, st, second.ref.size).None?
            && !Within(ns, quota, s2)
  {
  }
}
