/** The cache of the Python SDK: an OrderedDict that evicts before it inserts. */
module PythonCache {
  import opened Text
  import opened Lru

  // ---- OrderedDict ----

  function MoveToEnd(c: seq<Pair>, k: string): seq<Pair>
    requires Has(c, k)
  {
    LookupFacts(c, k);
    Without(c, k) + [Pair(k, Lookup(c, k).value)]
  }

  /** Item assignment: in place for a known key, at the end for a new one. */
  function Assign(c: seq<Pair>, k: string, v: string): seq<Pair> {
    if c == [] then [Pair(k, v)]
    else if c[0].key == k then [Pair(k, v)] + c[1..]
    else [c[0]] + Assign(c[1..], k, v)
  }

  lemma {:induction false} AssignAbsent(c: seq<Pair>, k: string, v: string)
    requires !Has(c, k)
    ensures Assign(c, k, v) == c + [Pair(k, v)]
  {
    if c == [] {
    } else {
      assert forall i :: 0 <= i < |c[1..]| ==> c[1..][i] == c[i + 1];
      AssignAbsent(c[1..], k, v);
    }
  }

  lemma {:induction false} AssignLast(c: seq<Pair>, k: string, last: string, v: string)
    requires !Has(c, k)
    ensures Assign(c + [Pair(k, last)], k, v) == c + [Pair(k, v)]
  {
    var d := c + [Pair(k, last)];
    if c != [] {
      assert forall i :: 0 <= i < |c[1..]| ==> c[1..][i] == c[i + 1];
      assert d[1..] == c[1..] + [Pair(k, last)];
      AssignLast(c[1..], k, last, v);
    } else {
      assert d[1..] == [];
    }
  }

  class Cache {
    const maxsize: int
    var store: seq<Pair>

    ghost function Room(): nat {
      if maxsize < 0 then 0 else maxsize
    }

    ghost predicate Valid()
      reads this
    {
      Distinct(store) && |store| <= Room()
    }

    constructor (maxsize: int)
      ensures Valid() && this.maxsize == maxsize && store == []
    {
      this.maxsize := maxsize;
      store := [];
    }

    method Get(key: string) returns (value: Option<string>)
      requires Valid()
      modifies this
      ensures Valid() && store == Step(old(store), Room(), Lru.Get(key)) && value == Reply(old(store), Lru.Get(key))
    {
      LookupFacts(store, key);
      if maxsize >= 1 {
        StepFits(store, maxsize, Lru.Get(key));
      }
      if !Has(store, key) {
        return None;
      }
      store := MoveToEnd(store, key);
      value := Lookup(store, key);
      LookupFacts(store, key);
      assert store[|store| - 1].key == key;
    }

    /** Not ok when evicting from an empty dictionary raises KeyError, which is when there is no room at all. */
    method Set(key: string, value: string) returns (ok: bool)
      requires Valid()
      modifies this
      ensures Valid() && ok == (maxsize >= 1)
      ensures store == if ok then Step(old(store), maxsize, Lru.Set(key, value)) else old(store)
    {
      WithoutFacts(store, key);
      LookupFacts(store, key);
      if maxsize >= 1 {
        StepFits(store, maxsize, Lru.Set(key, value));
      }
      if Has(store, key) {
        store := MoveToEnd(store, key);
        AssignLast(Without(old(store), key), key, Lookup(old(store), key).value, value);
      } else {
        if |store| >= maxsize {
          if store == [] {
            return false;
          }
          store := store[1..];
        }
        assert !Has(store, key) by {
          assert forall i :: 0 <= i < |store| ==> store[i] in old(store);
        }
        AssignAbsent(store, key, value);
      }
      store := Assign(store, key, value);
      ok := true;
    }

    method Delete(key: string)
      requires Valid()
      modifies this
      ensures Valid() && store == Step(old(store), Room(), Lru.Delete(key))
    {
      WithoutFacts(store, key);
      store := Without(store, key);
    }

    method Clear()
      modifies this
      ensures Valid() && store == []
    {
      store := [];
    }

    method Apply(op: Op) returns (reply: Option<string>)
      requires Valid() && maxsize >= 1
      modifies this
      ensures Valid() && store == Step(old(store), maxsize, op) && reply == Reply(old(store), op)
    {
      hide Run, Replies;
      reply := None;
      match op {
        case Get(k) => reply := Get(k);
        case Set(k, v) => var _ := Set(k, v);
        case Delete(k) => Delete(k);
        case Clear => Clear();
      }
    }

    /** Any operations on the cache: its contents and answers are those of the specification. */
    method Replay(ops: seq<Op>) returns (replies: seq<Option<string>>)
      requires Valid() && maxsize >= 1
      modifies this
      ensures Valid() && store == Run(old(store), maxsize, ops) && replies == Replies(old(store), maxsize, ops)
    {
      hide *;
      replies := [];
      RunEnds(store, maxsize, ops);
      for i := 0 to |ops|
        invariant Valid()
        invariant Run(store, maxsize, ops[i..]) == Run(old(store), maxsize, ops)
        invariant replies + Replies(store, maxsize, ops[i..]) == Replies(old(store), maxsize, ops)
      {
        ghost var before := store;
        RunNext(before, maxsize, ops, i);
        var reply := Apply(ops[i]);
        AppendOne(replies, reply, Replies(store, maxsize, ops[i + 1..]));
        replies := replies + [reply];
      }
      RunEnds(store, maxsize, ops);
    }

    /** A pull: the answer's items, in their order, into a cleared cache. */
    method BulkPull(data: seq<Pair>)
      requires Valid() && Distinct(data)
      modifies this
      ensures Valid() && store == Newest(data, Room())
    {
      Clear();
      for i := 0 to |data|
        invariant Valid()
        invariant maxsize >= 1 ==> store == PullAll([], maxsize, data[..i])
        invariant maxsize < 1 ==> store == []
      {
        assert data[..i + 1][..i] == data[..i];
        var ok := Set(data[i].key, data[i].value);
        if !ok {
          break;
        }
      }
      if maxsize >= 1 {
        assert data[..|data|] == data;
        PullKeepsTheLast(maxsize, data);
      }
    }
  }
}
