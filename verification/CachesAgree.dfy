/** The two SDKs side by side. */
module CachesAgree {
  import opened Text
  import opened Lru
  import PythonCache
  import JavaCache

  /** Fed the same operations, the two caches answer alike and hold the same pairs in the same order. */
  method SameOperations(capacity: nat, ops: seq<Op>)
      returns (p: PythonCache.Cache, j: JavaCache.Cache,
               pythonReplies: seq<Option<string>>, javaReplies: seq<Option<string>>)
    requires capacity >= 1
    ensures p.store == j.cache == Run([], capacity, ops)
    ensures pythonReplies == javaReplies == Replies([], capacity, ops)
  {
    p := new PythonCache.Cache(capacity);
    j := new JavaCache.Cache(capacity);
    pythonReplies := p.Replay(ops);
    javaReplies := j.Replay(ops);
  }
}
