/** Shared vocabulary: optional values, byte strings, and finite sums over maps. */
module Base {

  datatype Option<+T> = None | Some(value: T)

  datatype Result<+T, +E> = Ok(value: T) | Err(error: E)

  type Byte = x: int | 0 <= x < 256
  type Bytes = seq<Byte>

  function Min(a: int, b: int): int {
    if a <= b then a else b
  }

  function Max(a: int, b: int): int {
    if a >= b then a else b
  }

  function Pow2(n: nat): (r: nat)
    ensures r > 0
  {
    if n == 0 then 1 else 2 * Pow2(n - 1)
  }

  /** The concatenation of a list of pieces. */
  function Flatten<T>(pieces: seq<seq<T>>): seq<T> {
    if pieces == [] then [] else pieces[0] + Flatten(pieces[1..])
  }

  lemma ConcatAssoc<T>(a: seq<T>, b: seq<T>, c: seq<T>)
    ensures (a + b) + c == a + (b + c)
  {
  }

  lemma FlattenSnoc<T>(pieces: seq<seq<T>>, last: seq<T>)
    ensures Flatten(pieces + [last]) == Flatten(pieces) + last
  {
    FlattenAppend(pieces, [last]);
    assert Flatten([last]) == last;
  }

  lemma {:induction false} FlattenAppend<T>(a: seq<seq<T>>, b: seq<seq<T>>)
    ensures Flatten(a + b) == Flatten(a) + Flatten(b)
  {
    if a == [] {
      assert a + b == b;
    } else {
      FlattenAppend(a[1..], b);
      assert (a + b)[1..] == a[1..] + b;
      ConcatAssoc(a[0], Flatten(a[1..]), Flatten(b));
    }
  }

  /** A longer prefix is the shorter one with one more element. */
  lemma PrefixSnoc<T>(s: seq<T>, n: nat)
    requires n < |s|
    ensures s[..n + 1] == s[..n] + [s[n]] && s[..n + 1][..n] == s[..n]
  {
  }

  /** The sum of `w` over the values of a finite map. */
  ghost function MapSum<K, V>(m: map<K, V>, w: V -> int): int
    decreases |m|
  {
    if m == map[] then
      0
    else
      var k :| k in m;
      w(m[k]) + MapSum(m - {k}, w)
  }

  /** Any key may be split off the sum, not only the one the definition picks. */
  lemma {:induction false} MapSumSplit<K, V>(m: map<K, V>, k: K, w: V -> int)
    requires k in m
    ensures MapSum(m, w) == w(m[k]) + MapSum(m - {k}, w)
    decreases |m|
  {
    var p :| p in m && MapSum(m, w) == w(m[p]) + MapSum(m - {p}, w);
    if p != k {
      MapSumSplit(m - {p}, k, w);
      MapSumSplit(m - {k}, p, w);
      assert m - {p} - {k} == m - {k} - {p};
    }
  }

  /** Overwriting or adding one key changes the sum by the difference of the two values. */
  lemma MapSumPut<K, V>(m: map<K, V>, k: K, v: V, w: V -> int)
    ensures MapSum(m[k := v], w) == MapSum(m, w) + w(v) - (if k in m then w(m[k]) else 0)
  {
    MapSumSplit(m[k := v], k, w);
    assert m[k := v] - {k} == m - {k};
    if k in m {
      MapSumSplit(m, k, w);
    } else {
      assert m - {k} == m;
    }
  }

  lemma MapSumDrop<K, V>(m: map<K, V>, k: K, w: V -> int)
    ensures MapSum(m - {k}, w) == MapSum(m, w) - (if k in m then w(m[k]) else 0)
  {
    if k in m {
      MapSumSplit(m, k, w);
    } else {
      assert m - {k} == m;
    }
  }

  /** A sum of non-negative terms is at least each of them. */
  lemma {:induction false} MapSumTerm<K, V>(m: map<K, V>, w: V -> int)
    requires forall k :: k in m ==> w(m[k]) >= 0
    ensures MapSum(m, w) >= 0
    ensures forall k :: k in m ==> w(m[k]) <= MapSum(m, w)
    decreases |m|
  {
    forall k | k in m
      ensures 0 <= w(m[k]) <= MapSum(m, w)
    {
      MapSumSplit(m, k, w);
      MapSumTerm(m - {k}, w);
    }
  }

  lemma {:induction false} MapSumZero<K, V>(m: map<K, V>, w: V -> int)
    requires forall k :: k in m ==> w(m[k]) == 0
    ensures MapSum(m, w) == 0
    decreases |m|
  {
    if m != map[] {
      var k :| k in m;
      MapSumSplit(m, k, w);
      MapSumZero(m - {k}, w);
    }
  }

  lemma {:induction false} MapSumAgree<K, V>(m: map<K, V>, w: V -> int, w': V -> int)
    requires forall k :: k in m ==> w(m[k]) == w'(m[k])
    ensures MapSum(m, w) == MapSum(m, w')
    decreases |m|
  {
    if m != map[] {
      var k :| k in m;
      MapSumSplit(m, k, w);
      MapSumSplit(m, k, w');
      MapSumAgree(m - {k}, w, w');
    }
  }

  lemma MapSumUnionSplit<K, V>(a: map<K, V>, b: map<K, V>, k: K, w: V -> int)
    requires a.Keys !! b.Keys && k in b
    ensures a.Keys !! (b - {k}).Keys
    ensures MapSum(a + b, w) == w(b[k]) + MapSum(a + (b - {k}), w)
    ensures MapSum(b, w) == w(b[k]) + MapSum(b - {k}, w)
  {
    assert (a + b) - {k} == a + (b - {k});
    MapSumSplit(a + b, k, w);
    MapSumSplit(b, k, w);
  }

  lemma {:induction false} MapSumUnion<K, V>(a: map<K, V>, b: map<K, V>, w: V -> int)
    requires a.Keys !! b.Keys
    ensures MapSum(a + b, w) == MapSum(a, w) + MapSum(b, w)
    decreases b.Keys
  {
    if b.Keys == {} {
      assert a + b == a && b == map[];
    } else {
      var k :| k in b.Keys;
      MapSumUnionSplit(a, b, k, w);
      MapSumUnion(a, b - {k}, w);
    }
  }
}
