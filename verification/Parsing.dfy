/** Decoders over byte strings: each either fails or yields a value and the bytes left over. */
module Parsing {
  import opened Base
  import LE = LittleEndian

  datatype Parsed<+T> = Fail | Done(value: T, rest: Bytes)

  function TakeBytes(b: Bytes, n: nat): Parsed<Bytes> {
    if n <= |b| then Done(b[..n], b[n..]) else Fail
  }

  function TakeInt(b: Bytes, width: nat): Parsed<nat> {
    if width <= |b| then Done(LE.Get(b[..width]), b[width..]) else Fail
  }

  /** Items `i` to `count`, one after the other; the position is passed to the item decoder. */
  function Many<T>(item: (Bytes, nat) -> Parsed<T>, b: Bytes, i: nat, count: nat): Parsed<seq<T>>
    requires i <= count
    decreases count - i
  {
    if i == count then
      Done([], b)
    else
      match item(b, i)
      case Fail => Fail
      case Done(x, b1) => Prepend([x], Many(item, b1, i + 1, count))
  }

  function Prepend<T>(xs: seq<T>, p: Parsed<seq<T>>): Parsed<seq<T>> {
    match p
    case Fail => Fail
    case Done(ys, rest) => Done(xs + ys, rest)
  }

  /** Items up to the first that does not decode. */
  function Repeat<T(!new)>(item: Bytes -> Parsed<T>, b: Bytes): seq<T>
    requires Consumes(item)
    decreases |b|
  {
    match item(b)
    case Fail => []
    case Done(x, rest) => [x] + Repeat(item, rest)
  }

  function EncodeMany<T>(encode: T -> Bytes, xs: seq<T>): Bytes {
    if xs == [] then [] else encode(xs[0]) + EncodeMany(encode, xs[1..])
  }

  ghost predicate Consumes<T(!new)>(item: Bytes -> Parsed<T>) {
    forall b: Bytes :: item(b).Done? ==> |item(b).rest| < |b|
  }

  // ---- what is encoded decodes, whatever follows

  lemma TakeBytesBack(x: Bytes, rest: Bytes)
    ensures TakeBytes(x + rest, |x|) == Done(x, rest)
  {
  }

  lemma TakeIntBack(n: nat, width: nat, rest: Bytes)
    requires n < LE.Pow256(width)
    ensures TakeInt(LE.Put(n, width) + rest, width) == Done(n, rest)
  {
    LE.GetPut(n, width);
    TakeBytesBack(LE.Put(n, width), rest);
  }

  lemma Assoc4(a: Bytes, b: Bytes, c: Bytes, d: Bytes, rest: Bytes)
    ensures (a + (b + (c + d))) + rest == a + (b + (c + (d + rest)))
  {
  }

  lemma Assoc5(a: Bytes, b: Bytes, c: Bytes, d: Bytes, e: Bytes, rest: Bytes)
    ensures (a + (b + (c + (d + e)))) + rest == a + (b + (c + (d + (e + rest))))
  {
  }

  lemma {:induction false} ManyBack<T(!new)>(
    item: (Bytes, nat) -> Parsed<T>, encode: T -> Bytes, xs: seq<T>, i: nat, rest: Bytes)
    requires forall j: nat, more: Bytes :: j < |xs| ==> item(encode(xs[j]) + more, i + j) == Done(xs[j], more)
    ensures Many(item, EncodeMany(encode, xs) + rest, i, i + |xs|) == Done(xs, rest)
    decreases |xs|
  {
    if xs == [] {
      assert EncodeMany(encode, xs) + rest == rest;
    } else {
      var later := xs[1..];
      var more := EncodeMany(encode, later) + rest;
      ConcatAssoc(encode(xs[0]), EncodeMany(encode, later), rest);
      assert item(encode(xs[0]) + more, i + 0) == Done(xs[0], more);
      forall j: nat, m: Bytes | j < |later|
        ensures item(encode(later[j]) + m, i + 1 + j) == Done(later[j], m)
      {
        assert item(encode(xs[j + 1]) + m, i + (j + 1)) == Done(xs[j + 1], m);
      }
      ManyBack(item, encode, later, i + 1, rest);
      assert xs == [xs[0]] + later;
    }
  }

  /** Complete items at the front come back whatever follows them. */
  lemma {:induction false} RepeatBack<T(!new)>(item: Bytes -> Parsed<T>, encode: T -> Bytes, xs: seq<T>, rest: Bytes)
    requires Consumes(item)
    requires forall j: nat, more: Bytes :: j < |xs| ==> item(encode(xs[j]) + more) == Done(xs[j], more)
    ensures Repeat(item, EncodeMany(encode, xs) + rest) == xs + Repeat(item, rest)
    decreases |xs|
  {
    if xs == [] {
      assert EncodeMany(encode, xs) + rest == rest && xs + Repeat(item, rest) == Repeat(item, rest);
    } else {
      var later := xs[1..];
      var more := EncodeMany(encode, later) + rest;
      ConcatAssoc(encode(xs[0]), EncodeMany(encode, later), rest);
      assert item(encode(xs[0]) + more) == Done(xs[0], more);
      forall j: nat, m: Bytes | j < |later|
        ensures item(encode(later[j]) + m) == Done(later[j], m)
      {
        assert item(encode(xs[j + 1]) + m) == Done(xs[j + 1], m);
      }
      RepeatBack(item, encode, later, rest);
      assert xs == [xs[0]] + later;
      ConcatAssoc([xs[0]], later, Repeat(item, rest));
    }
  }

  // ---- a success does not depend on what follows

  lemma TakeBytesExtends(b: Bytes, n: nat, more: Bytes)
    ensures TakeBytes(b, n).Done? ==>
              TakeBytes(b + more, n) == Done(TakeBytes(b, n).value, TakeBytes(b, n).rest + more)
  {
    if n <= |b| {
      assert (b + more)[..n] == b[..n] && (b + more)[n..] == b[n..] + more;
    }
  }

  lemma TakeIntExtends(b: Bytes, width: nat, more: Bytes)
    ensures TakeInt(b, width).Done? ==>
              TakeInt(b + more, width) == Done(TakeInt(b, width).value, TakeInt(b, width).rest + more)
  {
    TakeBytesExtends(b, width, more);
  }

  ghost predicate Extends<T(!new)>(item: (Bytes, nat) -> Parsed<T>) {
    forall b: Bytes, i: nat, more: Bytes ::
      item(b, i).Done? ==> item(b + more, i) == Done(item(b, i).value, item(b, i).rest + more)
  }

  lemma {:induction false} ManyExtends<T(!new)>(item: (Bytes, nat) -> Parsed<T>, b: Bytes, i: nat, count: nat, more: Bytes)
    requires i <= count && Extends(item) && Many(item, b, i, count).Done?
    ensures Many(item, b + more, i, count)
            == Done(Many(item, b, i, count).value, Many(item, b, i, count).rest + more)
    decreases count - i
  {
    if i < count {
      assert item(b + more, i) == Done(item(b, i).value, item(b, i).rest + more);
      ManyExtends(item, item(b, i).rest, i + 1, count, more);
    }
  }

  lemma {:induction false} ManyShrinks<T(!new)>(item: (Bytes, nat) -> Parsed<T>, b: Bytes, i: nat, count: nat)
    requires i <= count
    requires forall b: Bytes, i: nat :: item(b, i).Done? ==> |item(b, i).rest| <= |b|
    ensures Many(item, b, i, count).Done? ==> |Many(item, b, i, count).rest| <= |b|
    decreases count - i
  {
    if i < count && item(b, i).Done? {
      ManyShrinks(item, item(b, i).rest, i + 1, count);
    }
  }

  // ---- a loop over items

  lemma PrependNone<T>(p: Parsed<seq<T>>)
    ensures Prepend([], p) == p
  {
    if p.Done? {
      assert [] + p.value == p.value;
    }
  }

  lemma PrependPrepend<T>(xs: seq<T>, x: T, p: Parsed<seq<T>>)
    ensures Prepend(xs, Prepend([x], p)) == Prepend(xs + [x], p)
  {
    if p.Done? {
      assert xs + ([x] + p.value) == (xs + [x]) + p.value;
    }
  }
}
