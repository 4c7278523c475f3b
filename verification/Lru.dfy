/** The in-process caches of the Python and the Java SDK. */
module Lru {
  import opened Text

  datatype Pair = Pair(key: string, value: string)

  // A cache is its pairs from the least to the most recently used.

  predicate Distinct(c: seq<Pair>) {
    forall i, j :: 0 <= i < j < |c| ==> c[i].key != c[j].key
  }

  predicate Has(c: seq<Pair>, k: string) {
    exists i :: 0 <= i < |c| && c[i].key == k
  }

  function Lookup(c: seq<Pair>, k: string): Option<string> {
    if c == [] then None
    else if c[0].key == k then Some(c[0].value)
    else Lookup(c[1..], k)
  }

  function Without(c: seq<Pair>, k: string): seq<Pair> {
    if c == [] then []
    else (if c[0].key == k then [] else [c[0]]) + Without(c[1..], k)
  }

  /** The n most recently used pairs. */
  function Newest(c: seq<Pair>, n: nat): seq<Pair> {
    if |c| <= n then c else c[|c| - n..]
  }

  // ---- What the operations mean ----

  datatype Op = Get(key: string) | Set(key: string, value: string) | Delete(key: string) | Clear

  function Step(c: seq<Pair>, capacity: nat, op: Op): seq<Pair> {
    match op
    case Get(k) =>
      match Lookup(c, k) {
        case None => c
        case Some(v) => Without(c, k) + [Pair(k, v)]
      }
    case Set(k, v) => Newest(Without(c, k) + [Pair(k, v)], capacity)
    case Delete(k) => Without(c, k)
    case Clear => []
  }

  function Reply(c: seq<Pair>, op: Op): Option<string> {
    if op.Get? then Lookup(c, op.key) else None
  }

  function Run(c: seq<Pair>, capacity: nat, ops: seq<Op>): seq<Pair>
    decreases |ops|
  {
    if ops == [] then c else Run(Step(c, capacity, ops[0]), capacity, ops[1..])
  }

  function Replies(c: seq<Pair>, capacity: nat, ops: seq<Op>): seq<Option<string>>
    decreases |ops|
  {
    if ops == [] then []
    else [Reply(c, ops[0])] + Replies(Step(c, capacity, ops[0]), capacity, ops[1..])
  }

  /** One operation of a run, in the middle of it. */
  lemma RunNext(c: seq<Pair>, capacity: nat, ops: seq<Op>, i: nat)
    requires i < |ops|
    ensures Run(c, capacity, ops[i..]) == Run(Step(c, capacity, ops[i]), capacity, ops[i + 1..])
    ensures Replies(c, capacity, ops[i..])
         == [Reply(c, ops[i])] + Replies(Step(c, capacity, ops[i]), capacity, ops[i + 1..])
  {
    hide Step, Reply;
    assert ops[i..][0] == ops[i] && ops[i..][1..] == ops[i + 1..];
  }

  lemma RunEnds(c: seq<Pair>, capacity: nat, ops: seq<Op>)
    ensures ops[0..] == ops
    ensures Run(c, capacity, ops[|ops|..]) == c && Replies(c, capacity, ops[|ops|..]) == []
  {
  }

  lemma AppendOne<T>(a: seq<T>, x: T, b: seq<T>)
    ensures a + ([x] + b) == (a + [x]) + b
  {
  }

  // ---- Facts about Without and Lookup ----

  lemma {:induction false} WithoutMembers(c: seq<Pair>, k: string)
    ensures forall x :: x in Without(c, k) <==> x in c && x.key != k
    ensures |Without(c, k)| <= |c|
  {
    if c == [] {
    } else {
      WithoutMembers(c[1..], k);
      assert forall x :: x in c <==> x == c[0] || x in c[1..];
    }
  }

  lemma {:induction false} WithoutAbsent(c: seq<Pair>, k: string)
    requires !Has(c, k)
    ensures Without(c, k) == c
  {
    if c == [] {
    } else {
      assert forall i :: 0 <= i < |c[1..]| ==> c[1..][i] == c[i + 1];
      WithoutAbsent(c[1..], k);
      assert c == [c[0]] + c[1..];
    }
  }

  lemma {:induction false} WithoutPresent(c: seq<Pair>, k: string)
    requires Distinct(c)
    ensures Distinct(Without(c, k))
    ensures Has(c, k) ==> |Without(c, k)| == |c| - 1
  {
    if c == [] {
    } else {
      assert forall i :: 0 <= i < |c[1..]| ==> c[1..][i] == c[i + 1];
      if c[0].key == k {
        WithoutAbsent(c[1..], k);
      } else {
        WithoutPresent(c[1..], k);
        WithoutMembers(c[1..], k);
        var w := Without(c[1..], k);
        forall i | 0 <= i < |w| ensures w[i].key != c[0].key {
          assert w[i] in c[1..];
        }
        if Has(c, k) {
          var i :| 0 <= i < |c| && c[i].key == k;
          assert c[1..][i - 1].key == k;
        }
      }
    }
  }

  lemma WithoutFacts(c: seq<Pair>, k: string)
    requires Distinct(c)
    ensures Distinct(Without(c, k)) && !Has(Without(c, k), k)
    ensures |Without(c, k)| == if Has(c, k) then |c| - 1 else |c|
    ensures !Has(c, k) ==> Without(c, k) == c
  {
    hide Without;
    WithoutPresent(c, k);
    WithoutMembers(c, k);
    if !Has(c, k) {
      WithoutAbsent(c, k);
    }
    forall i | 0 <= i < |Without(c, k)| ensures Without(c, k)[i].key != k {
      assert Without(c, k)[i] in Without(c, k);
    }
  }

  lemma {:induction false} LookupFacts(c: seq<Pair>, k: string)
    ensures Lookup(c, k).Some? <==> Has(c, k)
    ensures Lookup(c, k).Some? ==> Pair(k, Lookup(c, k).value) in c
    ensures Distinct(c) ==> forall i :: 0 <= i < |c| && c[i].key == k ==> Lookup(c, k) == Some(c[i].value)
  {
    if c == [] {
    } else {
      LookupFacts(c[1..], k);
      if c[0].key != k {
        if Has(c, k) {
          var i :| 0 <= i < |c| && c[i].key == k;
          assert c[1..][i - 1].key == k;
        }
        forall i | 0 <= i < |c| && c[i].key == k && Distinct(c) ensures Lookup(c, k) == Some(c[i].value) {
          assert c[1..][i - 1] == c[i];
        }
      }
    }
  }

  lemma DistinctAppend(c: seq<Pair>, p: Pair)
    requires Distinct(c) && !Has(c, p.key)
    ensures Distinct(c + [p])
  {
  }

  /** Keys stay distinct, and no operation outgrows the capacity. */
  lemma StepFits(c: seq<Pair>, capacity: nat, op: Op)
    requires Distinct(c) && |c| <= capacity && capacity >= 1
    ensures Distinct(Step(c, capacity, op)) && |Step(c, capacity, op)| <= capacity
  {
    hide Without, Lookup, Has;
    if !op.Clear? {
      WithoutFacts(c, op.key);
      LookupFacts(c, op.key);
      if op.Set? {
        DistinctAppend(Without(c, op.key), Pair(op.key, op.value));
      } else if op.Get? && Lookup(c, op.key).Some? {
        DistinctAppend(Without(c, op.key), Pair(op.key, Lookup(c, op.key).value));
      }
    }
  }

  lemma {:induction false} RunFits(c: seq<Pair>, capacity: nat, ops: seq<Op>)
    requires Distinct(c) && |c| <= capacity && capacity >= 1
    ensures Distinct(Run(c, capacity, ops)) && |Run(c, capacity, ops)| <= capacity
    decreases |ops|
  {
    hide Step;
    if ops == [] {
    } else {
      StepFits(c, capacity, ops[0]);
      RunFits(Step(c, capacity, ops[0]), capacity, ops[1..]);
    }
  }

  // ---- Inclusion ----

  /** a can be had from b by dropping pairs. */
  predicate Subsequence(a: seq<Pair>, b: seq<Pair>) {
    a == [] || (b != [] && ((a[0] == b[0] && Subsequence(a[1..], b[1..])) || Subsequence(a, b[1..])))
  }

  lemma {:induction false} SubsequenceTail(a: seq<Pair>, b: seq<Pair>)
    requires a != [] && Subsequence(a, b)
    ensures Subsequence(a[1..], b)
    ensures Subsequence(a[1..], b[1..])
    ensures |a| <= |b|
  {
    if a[0] == b[0] && Subsequence(a[1..], b[1..]) {
      if |a| > 1 {
        SubsequenceTail(a[1..], b[1..]);
      }
    } else {
      SubsequenceTail(a, b[1..]);
    }
  }

  lemma {:induction false} SubsequenceAppend(a: seq<Pair>, b: seq<Pair>, x: Pair)
    requires Subsequence(a, b)
    ensures Subsequence(a + [x], b + [x]) && Subsequence(a, b + [x])
  {
    if b == [] {
      assert a + [x] == [x] && b + [x] == [x];
      assert [x][1..] == [];
    } else {
      assert (b + [x])[1..] == b[1..] + [x];
      if a == [] {
        SubsequenceAppend([], b[1..], x);
      } else {
        assert (a + [x])[1..] == a[1..] + [x];
        if a[0] == b[0] && Subsequence(a[1..], b[1..]) {
          SubsequenceAppend(a[1..], b[1..], x);
        } else {
          SubsequenceAppend(a, b[1..], x);
        }
      }
    }
  }

  lemma {:induction false} SubsequenceWithout(a: seq<Pair>, b: seq<Pair>, k: string)
    requires Subsequence(a, b)
    ensures Subsequence(Without(a, k), Without(b, k))
  {
    if a == [] {
    } else {
      var wb := Without(b[1..], k);
      assert Without(b, k) == if b[0].key == k then wb else [b[0]] + wb;
      if a[0] == b[0] && Subsequence(a[1..], b[1..]) {
        SubsequenceWithout(a[1..], b[1..], k);
        assert Without(a, k) == if a[0].key == k then Without(a[1..], k) else [a[0]] + Without(a[1..], k);
      } else {
        SubsequenceWithout(a, b[1..], k);
      }
    }
  }

  lemma {:induction false} SubsequenceMembers(a: seq<Pair>, b: seq<Pair>)
    requires Subsequence(a, b)
    ensures forall x :: x in a ==> x in b
    ensures |a| <= |b|
  {
    if a == [] {
    } else {
      if a[0] == b[0] && Subsequence(a[1..], b[1..]) {
        SubsequenceMembers(a[1..], b[1..]);
        assert forall x :: x in a ==> x == a[0] || x in a[1..];
      } else {
        SubsequenceMembers(a, b[1..]);
      }
    }
  }

  /** The relation between a small and a large cache fed the same operations. */
  predicate Included(a: seq<Pair>, b: seq<Pair>, small: nat, large: nat) {
    && Distinct(a) && Distinct(b)
    && |a| <= small && |b| <= large
    && Subsequence(a, b)
    && |b| - |a| <= large - small
  }

  lemma HitsAreShared(a: seq<Pair>, b: seq<Pair>, k: string)
    requires Distinct(b) && Subsequence(a, b)
    ensures Lookup(a, k).Some? ==> Lookup(b, k) == Lookup(a, k)
  {
    LookupFacts(a, k);
    LookupFacts(b, k);
    SubsequenceMembers(a, b);
  }

  /** Two insertions into disjoint room: what is dropped at the front keeps the order and the gap. */
  lemma NewestKeepsInclusion(a: seq<Pair>, b: seq<Pair>, small: nat, large: nat)
    requires 1 <= small <= large && a != [] && Distinct(a) && Distinct(b) && Subsequence(a, b)
    requires |a| <= small + 1 && |b| <= large + 1 && |b| - |a| <= large - small
    ensures Included(Newest(a, small), Newest(b, large), small, large)
  {
    SubsequenceTail(a, b);
    hide Subsequence;
    assert Newest(a, small) == if |a| <= small then a else a[1..];
    assert Newest(b, large) == if |b| <= large then b else b[1..];
  }

  lemma SetKeepsInclusion(a: seq<Pair>, b: seq<Pair>, small: nat, large: nat, p: Pair)
    requires Included(a, b, small, large) && 1 <= small <= large
    ensures Included(Newest(Without(a, p.key) + [p], small), Newest(Without(b, p.key) + [p], large), small, large)
  {
    hide Without, Subsequence, Lookup, Has, Newest;
    WithoutFacts(a, p.key);
    WithoutFacts(b, p.key);
    SubsequenceWithout(a, b, p.key);
    LookupFacts(a, p.key);
    LookupFacts(b, p.key);
    HitsAreShared(a, b, p.key);
    SubsequenceAppend(Without(a, p.key), Without(b, p.key), p);
    DistinctAppend(Without(a, p.key), p);
    DistinctAppend(Without(b, p.key), p);
    NewestKeepsInclusion(Without(a, p.key) + [p], Without(b, p.key) + [p], small, large);
  }

  lemma StepKeepsInclusion(a: seq<Pair>, b: seq<Pair>, small: nat, large: nat, op: Op)
    requires Included(a, b, small, large) && 1 <= small <= large
    ensures Included(Step(a, small, op), Step(b, large, op), small, large)
    ensures Reply(a, op).Some? ==> Reply(b, op) == Reply(a, op)
  {
    if !op.Clear? {
      var k := op.key;
      WithoutFacts(a, k);
      WithoutFacts(b, k);
      LookupFacts(a, k);
      LookupFacts(b, k);
      HitsAreShared(a, b, k);
      SubsequenceWithout(a, b, k);
      SubsequenceMembers(a, b);
      hide Without, Subsequence, Lookup, Has;
      if op.Set? {
        SetKeepsInclusion(a, b, small, large, Pair(k, op.value));
      } else if op.Get? && Lookup(b, k).Some? {
        var p := Pair(k, Lookup(b, k).value);
        SubsequenceAppend(Without(a, k), Without(b, k), p);
        DistinctAppend(Without(a, k), p);
        DistinctAppend(Without(b, k), p);
      }
    }
  }

  /** After any operations the small cache is an ordered part of the large one: no hit is ever lost to more room. */
  lemma {:induction false} Inclusion(a: seq<Pair>, b: seq<Pair>, small: nat, large: nat, ops: seq<Op>)
    requires Included(a, b, small, large) && 1 <= small <= large
    ensures Included(Run(a, small, ops), Run(b, large, ops), small, large)
    ensures var ra, rb := Replies(a, small, ops), Replies(b, large, ops);
            |ra| == |rb| == |ops| && forall i :: 0 <= i < |ra| ==> ra[i].Some? ==> rb[i] == ra[i]
    decreases |ops|
  {
    hide Step, Reply, Included;
    if ops == [] {
    } else {
      StepKeepsInclusion(a, b, small, large, ops[0]);
      Inclusion(Step(a, small, ops[0]), Step(b, large, ops[0]), small, large, ops[1..]);
    }
  }

  // ---- A pull ----

  function PullAll(c: seq<Pair>, capacity: nat, data: seq<Pair>): seq<Pair> {
    if data == [] then c
    else Step(PullAll(c, capacity, data[..|data| - 1]), capacity, Set(data[|data| - 1].key, data[|data| - 1].value))
  }

  lemma NewestHasNoMore(c: seq<Pair>, n: nat, k: string)
    requires !Has(c, k)
    ensures !Has(Newest(c, n), k)
  {
  }

  lemma NewestOneMore(init: seq<Pair>, capacity: nat, p: Pair)
    requires !Has(init, p.key)
    ensures Step(Newest(init, capacity), capacity, Set(p.key, p.value)) == Newest(init + [p], capacity)
  {
    hide Without, Has;
    NewestHasNoMore(init, capacity, p.key);
    WithoutAbsent(Newest(init, capacity), p.key);
    assert Pair(p.key, p.value) == p;
  }

  /** Filling an empty cache with distinct keys leaves exactly the last of them. */
  lemma {:induction false} PullKeepsTheLast(capacity: nat, data: seq<Pair>)
    requires Distinct(data)
    ensures PullAll([], capacity, data) == Newest(data, capacity)
  {
    hide Newest, Step;
    if data == [] {
      NewestOfNone(capacity);
    } else {
      var n := |data| - 1;
      var init, p := data[..n], data[n];
      PullKeepsTheLast(capacity, init);
      NewestOneMore(init, capacity, p);
      assert data == init + [p];
    }
  }

  lemma NewestOfNone(capacity: nat)
    ensures Newest([], capacity) == []
  {
  }
}
