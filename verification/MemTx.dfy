/**
 The in-memory index backend: a transaction collects writes and deletions over the
 store's data and is applied as a whole, or not at all.
 */
module Transactions {
  import opened Base

  type Value = Bytes
  type Data = map<string, Value>

  datatype TxOp = Put(key: string, value: Value) | Get(key: string) | Delete(key: string)

  /** What a plain map does. */
  function ApplyOp(m: Data, op: TxOp): Data {
    match op
    case Put(k, v) => m[k := v]
    case Get(_) => m
    case Delete(k) => m - {k}
  }

  function ApplyAll(m: Data, ops: seq<TxOp>): Data {
    if ops == [] then m else ApplyOp(ApplyAll(m, ops[..|ops| - 1]), ops[|ops| - 1])
  }

  /** What a read finds in a plain map. */
  function Lookup(m: Data, key: string): Option<Value> {
    if key in m then Some(m[key]) else None
  }

  /** A transaction's view: its own writes over the parent, without what it deleted. */
  function Overlay(parent: Data, writes: Data, deletes: set<string>): Data {
    (parent + writes) - deletes
  }

  lemma OverlayPut(parent: Data, writes: Data, deletes: set<string>, k: string, v: Value)
    ensures Overlay(parent, writes[k := v], deletes - {k}) == Overlay(parent, writes, deletes)[k := v]
  {
  }

  lemma OverlayDelete(parent: Data, writes: Data, deletes: set<string>, k: string)
    ensures Overlay(parent, writes - {k}, deletes + {k}) == Overlay(parent, writes, deletes) - {k}
  {
  }
}

module MemoryBackends {
  import opened Base
  import opened Transactions

  class MemTx {
    const parent: Data
    var writes: Data
    var deletes: set<string>

    /** What the transaction sees. */
    ghost function View(): Data
      reads this
    {
      Overlay(parent, writes, deletes)
    }

    ghost predicate Valid()
      reads this
    {
      writes.Keys !! deletes
    }

    constructor (parent: Data)
      ensures Valid() && View() == parent && this.parent == parent
    {
      this.parent := parent;
      writes, deletes := map[], {};
    }

    method Put(key: string, value: Value)
      requires Valid()
      modifies this
      ensures Valid() && View() == old(View())[key := value]
    {
      OverlayPut(parent, writes, deletes, key, value);
      writes := writes[key := value];
      deletes := deletes - {key};
    }

    /** Get sees the transaction's own effects: what it wrote, nothing it deleted, and otherwise the parent. */
    method Get(key: string) returns (r: Option<Value>)
      requires Valid()
      ensures r == Lookup(View(), key)
    {
      if key in deletes {
        return None;
      }
      if key in writes {
        return Some(writes[key]);
      }
      if key !in parent {
        return None;
      }
      return Some(parent[key]);
    }

    method Delete(key: string)
      requires Valid()
      modifies this
      ensures Valid() && View() == old(View()) - {key}
    {
      OverlayDelete(parent, writes, deletes, key);
      writes := writes - {key};
      deletes := deletes + {key};
    }
  }

  class MemoryBackend {
    var data: Data
    var closed: bool

    constructor ()
      ensures data == map[] && !closed
    {
      data, closed := map[], false;
    }

    /**
     Tx over a function that performs `ops` and then succeeds or fails: each read sees
     the operations before it, success applies all of them in order, and a failure or
     a closed backend leaves the data alone.
     */
    method Tx(ops: seq<TxOp>, fails: bool) returns (ok: bool, found: seq<Option<Value>>)
      modifies this`data
      ensures ok <==> !closed && !fails
      ensures data == if ok then ApplyAll(old(data), ops) else old(data)
      ensures !closed ==> |found| == |ops|
                          && forall i :: 0 <= i < |ops| && ops[i].Get? ==>
                               found[i] == Lookup(ApplyAll(old(data), ops[..i]), ops[i].key)
    {
      found := [];
      if closed {
        return false, [];
      }
      var tx := new MemTx(data);
      var i := 0;
      while i < |ops|
        invariant 0 <= i <= |ops| && tx.Valid() && fresh(tx) && tx.parent == old(data) == data
        invariant tx.View() == ApplyAll(old(data), ops[..i]) && |found| == i
        invariant forall k :: 0 <= k < i && ops[k].Get? ==>
                    found[k] == Lookup(ApplyAll(old(data), ops[..k]), ops[k].key)
      {
        PrefixSnoc(ops, i);
        var one := None;
        match ops[i] {
          case Put(k, v) => tx.Put(k, v);
          case Get(k) => one := tx.Get(k);
          case Delete(k) => tx.Delete(k);
        }
        found := found + [one];
        i := i + 1;
      }
      assert ops[..i] == ops;
      if fails {
        return false, found;
      }
      data := data + tx.writes;
      data := data - tx.deletes;
      ok := true;
    }
  }
}
