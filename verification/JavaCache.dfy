/** The cache of the Java SDK: an access-ordered LinkedHashMap that inserts and then evicts. */
module JavaCache {
  import opened Text
  import opened Lru

  const DEFAULT_CACHE_SIZE: nat := 500

  class Cache {
    const maxSize: nat
    var cache: seq<Pair>

    ghost predicate Valid()
      reads this
    {
      maxSize >= 1 && Distinct(cache) && |cache| <= maxSize
    }

    constructor (cacheSize: int)
      ensures Valid() && cache == [] && maxSize == if cacheSize > 0 then cacheSize else 500
    {
      maxSize := if cacheSize > 0 then cacheSize else DEFAULT_CACHE_SIZE;
      cache := [];
    }

    predicate RemoveEldestEntry()
      reads this
    {
      |cache| > maxSize
    }

    method Get(key: string) returns (value: Option<string>)
      requires Valid()
      modifies this
      ensures Valid() && cache == Step(old(cache), maxSize, Lru.Get(key)) && value == Reply(old(cache), Lru.Get(key))
    {
      StepFits(cache, maxSize, Lru.Get(key));
      value := Lookup(cache, key);
      if value.Some? {
        cache := Without(cache, key) + [Pair(key, value.value)];
      }
    }

    method Put(key: string, value: string)
      requires Valid()
      modifies this
      ensures Valid() && cache == Step(old(cache), maxSize, Lru.Set(key, value))
    {
      WithoutFacts(cache, key);
      StepFits(cache, maxSize, Lru.Set(key, value));
      if Has(cache, key) {
        cache := Without(cache, key) + [Pair(key, value)];
      } else {
        cache := cache + [Pair(key, value)];
        if RemoveEldestEntry() {
          cache := cache[1..];
        }
      }
    }

    /** A key is removed; no key at all means every key. */
    method Evict(key: Option<string>)
      requires Valid()
      modifies this
      ensures Valid() && cache == Step(old(cache), maxSize, if key.Some? then Lru.Delete(key.value) else Lru.Clear)
    {
      if key.Some? {
        WithoutFacts(cache, key.value);
        cache := Without(cache, key.value);
      } else {
        cache := [];
      }
    }

    method Apply(op: Op) returns (reply: Option<string>)
      requires Valid()
      modifies this
      ensures Valid() && cache == Step(old(cache), maxSize, op) && reply == Reply(old(cache), op)
    {
      hide Run, Replies;
      reply := None;
      match op {
        case Get(k) => reply := Get(k);
        case Set(k, v) => Put(k, v);
        case Delete(k) => Evict(Some(k));
        case Clear => Evict(None);
      }
    }

    method Replay(ops: seq<Op>) returns (replies: seq<Option<string>>)
      requires Valid()
      modifies this
      ensures Valid() && cache == Run(old(cache), maxSize, ops) && replies == Replies(old(cache), maxSize, ops)
    {
      hide *;
      replies := [];
      RunEnds(cache, maxSize, ops);
      for i := 0 to |ops|
        invariant Valid()
        invariant Run(cache, maxSize, ops[i..]) == Run(old(cache), maxSize, ops)
        invariant replies + Replies(cache, maxSize, ops[i..]) == Replies(old(cache), maxSize, ops)
      {
        ghost var before := cache;
        RunNext(before, maxSize, ops, i);
        var reply := Apply(ops[i]);
        AppendOne(replies, reply, Replies(cache, maxSize, ops[i + 1..]));
        replies := replies + [reply];
      }
      RunEnds(cache, maxSize, ops);
    }

    method Refresh(data: seq<Pair>)
      requires Valid() && Distinct(data)
      modifies this
      ensures Valid() && cache == Newest(data, maxSize)
    {
      cache := [];
      for i := 0 to |data|
        invariant Valid()
        invariant cache == PullAll([], maxSize, data[..i])
      {
        assert data[..i + 1][..i] == data[..i];
        Put(data[i].key, data[i].value);
      }
      assert data[..|data|] == data;
      PullKeepsTheLast(maxSize, data);
    }
  }
}
