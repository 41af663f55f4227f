/** A uint64 as its 64 bits, the lowest first, with the operations the bitmap uses. */
module Words {
  import opened Base

  type Word = w: seq<bool> | |w| == 64 witness seq(64, _ => false)

  function Zero(): Word {
    seq(64, _ => false)
  }

  /** ^uint64(0) */
  function Full(): Word {
    seq(64, _ => true)
  }

  /** uint64(1) << b */
  function OneBit(b: nat): Word {
    seq(64, i => i == b)
  }

  /** (uint64(1) << v) - 1 */
  function LowMask(v: nat): Word {
    seq(64, i => i < v)
  }

  function Or(a: Word, b: Word): Word {
    seq(64, i requires 0 <= i < 64 => a[i] || b[i])
  }

  function And(a: Word, b: Word): Word {
    seq(64, i requires 0 <= i < 64 => a[i] && b[i])
  }

  /** The set bits among the first `n`. */
  function Ones(w: seq<bool>, n: nat): (c: nat)
    requires n <= |w|
    ensures c <= n
  {
    if n == 0 then 0 else Ones(w, n - 1) + if w[n - 1] then 1 else 0
  }

  /** bits.OnesCount64 */
  function OnesCount(w: Word): (c: nat)
    ensures c <= 64
  {
    Ones(w, 64)
  }

  lemma {:induction false} OnesMasked(w: Word, v: nat, n: nat)
    requires v <= 64 && n <= 64
    ensures Ones(And(w, LowMask(v)), n) == Ones(w, Min(n, v))
    decreases n
  {
    if n > 0 {
      OnesMasked(w, v, n - 1);
    }
  }

  // ---- the number a word stands for

  function Value(w: seq<bool>): nat {
    if w == [] then 0 else (if w[0] then 1 else 0) + 2 * Value(w[1..])
  }

  /** The masks are the numbers the shifts produce. */
  lemma {:induction false} MaskValue(v: nat, n: nat)
    requires v <= n
    ensures Value(seq(n, i => i < v)) == Pow2(v) - 1
    decreases n
  {
    if n > 0 {
      var w := seq(n, i => i < v);
      if v == 0 {
        assert w[1..] == seq(n - 1, i => i < 0);
        MaskValue(0, n - 1);
      } else {
        assert w[1..] == seq(n - 1, i => i < v - 1);
        MaskValue(v - 1, n - 1);
      }
    }
  }

  lemma {:induction false} BitValue(b: nat, n: nat)
    requires b < n
    ensures Value(seq(n, i => i == b)) == Pow2(b)
    decreases n
  {
    var w := seq(n, i => i == b);
    if b == 0 {
      assert w[1..] == seq(n - 1, i => i < 0);
      MaskValue(0, n - 1);
    } else {
      assert w[1..] == seq(n - 1, i => i == b - 1);
      BitValue(b - 1, n - 1);
    }
  }

  /** Equal numbers have equal bits, so comparing words compares numbers. */
  lemma {:induction false} ValueIsInjective(a: seq<bool>, b: seq<bool>)
    requires |a| == |b| && Value(a) == Value(b)
    ensures a == b
    decreases |a|
  {
    if a != [] {
      ValueIsInjective(a[1..], b[1..]);
      assert a == [a[0]] + a[1..] && b == [b[0]] + b[1..];
    }
  }
}
