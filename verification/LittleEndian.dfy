/** Fixed-width little-endian integers, as encoding/binary writes and reads them. */
module LittleEndian {
  import opened Base

  function Pow256(width: nat): nat {
    if width == 0 then 1 else 256 * Pow256(width - 1)
  }

  /** The low `width` bytes of `n`: a value that does not fit is truncated, as a Go conversion does. */
  function Put(n: nat, width: nat): (b: Bytes)
    ensures |b| == width
  {
    if width == 0 then [] else [n % 256] + Put(n / 256, width - 1)
  }

  function Get(b: Bytes): (n: nat)
    ensures n < Pow256(|b|)
  {
    if b == [] then 0 else b[0] + 256 * Get(b[1..])
  }

  lemma {:induction false} GetPut(n: nat, width: nat)
    requires n < Pow256(width)
    ensures Get(Put(n, width)) == n
    decreases width
  {
    if width > 0 {
      GetPut(n / 256, width - 1);
      assert Put(n, width)[1..] == Put(n / 256, width - 1);
    }
  }

  lemma {:induction false} PutGet(b: Bytes)
    ensures Put(Get(b), |b|) == b
    decreases |b|
  {
    if b != [] {
      PutGet(b[1..]);
      assert Get(b) / 256 == Get(b[1..]) && Get(b) % 256 == b[0];
      assert Put(Get(b), |b|) == [b[0]] + b[1..];
    }
  }

  lemma Pow256Values()
    ensures Pow256(2) == 0x1_0000 && Pow256(4) == 0x1_0000_0000 && Pow256(8) == 0x1_0000_0000_0000_0000
  {
    assert Pow256(1) == 256;
    assert Pow256(3) == 256 * Pow256(2);
    assert Pow256(5) == 256 * Pow256(4);
    assert Pow256(6) == 256 * Pow256(5);
    assert Pow256(7) == 256 * Pow256(6);
  }

  const TWO_63 := 0x8000_0000_0000_0000
  const TWO_64 := 0x1_0000_0000_0000_0000

  /** uint64(x) for an int64 x, and back. */
  function ToUint64(x: int): (n: nat)
    requires -TWO_63 <= x < TWO_63
    ensures n < TWO_64
  {
    if x < 0 then x + TWO_64 else x
  }

  function ToInt64(n: nat): (x: int)
    requires n < TWO_64
    ensures -TWO_63 <= x < TWO_63
  {
    if n < TWO_63 then n else n - TWO_64
  }

  /** int64 addition of two non-overflowing operands, with wrap-around of the result. */
  function Wrap64(x: int): int
    requires -TWO_64 <= x < TWO_64
  {
    if x >= TWO_63 then x - TWO_64 else if x < -TWO_63 then x + TWO_64 else x
  }
}
