/** What makes the caches least-recently-used: their order is that of the last uses, and the oldest goes first. */
module CacheRecency {
  import opened Text
  import opened Lru

  lemma {:induction false} WithoutAt(c: seq<Pair>, i: nat)
    requires Distinct(c) && i < |c|
    ensures Without(c, c[i].key) == c[..i] + c[i + 1..]
  {
    if i == 0 {
      assert !Has(c[1..], c[0].key) by {
        assert forall j :: 0 <= j < |c[1..]| ==> c[1..][j] == c[j + 1];
      }
      WithoutAbsent(c[1..], c[0].key);
    } else {
      assert c[1..][i - 1] == c[i];
      WithoutAt(c[1..], i - 1);
      assert c[..i] == [c[0]] + c[1..][..i - 1] && c[1..][i..] == c[i + 1..];
    }
  }

  lemma WhereIs(c: seq<Pair>, k: string) returns (i: nat)
    requires Has(c, k)
    ensures i < |c| && c[i].key == k
  {
    i :| 0 <= i < |c| && c[i].key == k;
  }

  /** A hit moves its pair to the end and leaves the others in their order; a miss leaves all. */
  lemma HitIsNewest(c: seq<Pair>, capacity: nat, k: string)
    requires Distinct(c)
    ensures Has(c, k) ==>
              exists i :: 0 <= i < |c| && c[i].key == k && Step(c, capacity, Get(k)) == c[..i] + c[i + 1..] + [c[i]]
    ensures !Has(c, k) ==> Step(c, capacity, Get(k)) == c
  {
    hide Without, Lookup;
    LookupFacts(c, k);
    if Has(c, k) {
      var i := WhereIs(c, k);
      WithoutAt(c, i);
      assert c[i] == Pair(k, c[i].value);
    }
  }

  /** A set drops the pair its key had, or the oldest one if there is no room for another, and adds the new pair. */
  lemma SetIsNewest(c: seq<Pair>, capacity: nat, k: string, v: string)
    requires Distinct(c) && |c| <= capacity && capacity >= 1
    ensures Has(c, k) ==>
              exists i :: 0 <= i < |c| && c[i].key == k
                          && Step(c, capacity, Set(k, v)) == c[..i] + c[i + 1..] + [Pair(k, v)]
    ensures !Has(c, k) ==>
              Step(c, capacity, Set(k, v)) == (if |c| < capacity then c else c[1..]) + [Pair(k, v)]
  {
    hide Without, Lookup;
    WithoutFacts(c, k);
    if Has(c, k) {
      var i := WhereIs(c, k);
      WithoutAt(c, i);
    } else {
      assert |c| == capacity ==> (c + [Pair(k, v)])[1..] == c[1..] + [Pair(k, v)];
    }
  }

  /** A pair that has just been hit survives the next insertion, unless there is room for one only. */
  lemma HitSurvives(c: seq<Pair>, capacity: nat, k: string, other: string, v: string)
    requires Distinct(c) && |c| <= capacity && capacity >= 2 && Has(c, k) && other != k
    ensures Has(Step(Step(c, capacity, Get(k)), capacity, Set(other, v)), k)
  {
    hide Step;
    HitIsNewest(c, capacity, k);
    StepFits(c, capacity, Get(k));
    var s := Step(c, capacity, Get(k));
    var p := s[|s| - 1];
    SetIsNewest(s, capacity, other, v);
    var t := Step(s, capacity, Set(other, v));
    if Has(s, other) {
      var i :| 0 <= i < |s| && s[i].key == other && t == s[..i] + s[i + 1..] + [Pair(other, v)];
      assert t[|s| - 2] == p;
    } else {
      assert t[|t| - 2] == p;
    }
  }

  // ---- Over runs ----

  lemma {:induction false} RunLast(c: seq<Pair>, capacity: nat, ops: seq<Op>)
    requires ops != []
    ensures Run(c, capacity, ops) == Step(Run(c, capacity, ops[..|ops| - 1]), capacity, ops[|ops| - 1])
    decreases |ops|
  {
    hide Step;
    if |ops| == 1 {
      assert ops[..0] == [];
    } else {
      RunLast(Step(c, capacity, ops[0]), capacity, ops[1..]);
      assert ops[1..][..|ops| - 2] == ops[..|ops| - 1][1..];
    }
  }

  /** The cache after these operations on an empty one. */
  function After(capacity: nat, ops: seq<Op>): seq<Pair> {
    Run([], capacity, ops)
  }

  /** An operation uses a key when it sets it or hits it. */
  predicate Uses(c: seq<Pair>, op: Op, k: string) {
    (op.Set? && op.key == k) || (op.Get? && op.key == k && Has(c, k))
  }

  /** The number of the last operation that used the key, or 0. */
  function LastUse(capacity: nat, ops: seq<Op>, k: string): (t: nat)
    ensures t <= |ops|
  {
    if ops == [] then 0
    else
      var init := ops[..|ops| - 1];
      if Uses(After(capacity, init), ops[|ops| - 1], k) then |ops| else LastUse(capacity, init, k)
  }

  /** From the least to the most recently used. */
  ghost predicate ByUse(capacity: nat, ops: seq<Op>, c: seq<Pair>) {
    forall i, j :: 0 <= i < j < |c| ==> LastUse(capacity, ops, c[i].key) < LastUse(capacity, ops, c[j].key)
  }

  /** A delete drops the pair of its key and leaves the others in their order. */
  lemma DeleteDrops(c: seq<Pair>, capacity: nat, k: string)
    requires Distinct(c)
    ensures Has(c, k) ==>
              exists i :: 0 <= i < |c| && c[i].key == k && Step(c, capacity, Delete(k)) == c[..i] + c[i + 1..]
    ensures !Has(c, k) ==> Step(c, capacity, Delete(k)) == c
  {
    hide Without;
    if Has(c, k) {
      var i := WhereIs(c, k);
      WithoutAt(c, i);
    } else {
      WithoutAbsent(c, k);
    }
  }

  lemma ClearEmpties(c: seq<Pair>, capacity: nat)
    ensures Step(c, capacity, Clear) == []
  {
  }

  predicate Sorted(f: string -> nat, c: seq<Pair>) {
    forall i, j :: 0 <= i < j < |c| ==> f(c[i].key) < f(c[j].key)
  }

  /** Without one pair, the order of the others is the same ... */
  lemma SortedWithout(f: string -> nat, c: seq<Pair>, i: nat)
    requires Sorted(f, c) && i < |c|
    ensures Sorted(f, c[..i] + c[i + 1..])
  {
    var s := c[..i] + c[i + 1..];
    forall x, y | 0 <= x < y < |s| ensures f(s[x].key) < f(s[y].key) {
      assert s[x] == c[if x < i then x else x + 1] && s[y] == c[if y < i then y else y + 1];
    }
  }

  /** ... and the pair used now goes last. */
  lemma SortedAppend(f: string -> nat, g: string -> nat, c: seq<Pair>, p: Pair, n: nat)
    requires Sorted(f, c) && !Has(c, p.key)
    requires forall k :: f(k) <= n && g(k) == if k == p.key then n + 1 else f(k)
    ensures Sorted(g, c + [p])
  {
  }

  lemma LastUseNext(capacity: nat, ops: seq<Op>, op: Op, k: string)
    ensures LastUse(capacity, ops + [op], k)
         == if Uses(After(capacity, ops), op, k) then |ops| + 1 else LastUse(capacity, ops, k)
  {
    var more := ops + [op];
    assert more[..|more| - 1] == ops;
  }

  lemma DroppedIsGone(c: seq<Pair>, i: nat)
    requires Distinct(c) && i < |c|
    ensures !Has(c[..i] + c[i + 1..], c[i].key)
  {
  }

  /** What one more operation makes of an order by last use. */
  lemma StepByUse(capacity: nat, ops: seq<Op>, op: Op)
    requires capacity >= 1 && Distinct(After(capacity, ops)) && |After(capacity, ops)| <= capacity
    requires ByUse(capacity, ops, After(capacity, ops))
    ensures ByUse(capacity, ops + [op], Step(After(capacity, ops), capacity, op))
  {
    hide After, LastUse, Step, Has, Distinct;
    var c, n := After(capacity, ops), |ops|;
    var f: string -> nat, g: string -> nat := k => LastUse(capacity, ops, k), k => LastUse(capacity, ops + [op], k);
    forall k ensures g(k) == if Uses(c, op, k) then n + 1 else f(k) {
      LastUseNext(capacity, ops, op, k);
    }
    assert Sorted(f, c);
    var s := Step(c, capacity, op);
    match op {
      case Get(k) =>
        HitIsNewest(c, capacity, k);
        if Has(c, k) {
          var i :| 0 <= i < |c| && c[i].key == k && s == c[..i] + c[i + 1..] + [c[i]];
          SortedWithout(f, c, i);
          DroppedIsGone(c, i);
          SortedAppend(f, g, c[..i] + c[i + 1..], c[i], n);
        }
      case Set(k, v) =>
        SetSorted(f, g, c, capacity, k, v, n);
      case Delete(k) =>
        DeleteDrops(c, capacity, k);
        if Has(c, k) {
          var i :| 0 <= i < |c| && c[i].key == k && s == c[..i] + c[i + 1..];
          SortedWithout(f, c, i);
        }
      case Clear =>
        ClearEmpties(c, capacity);
    }
    assert Sorted(g, s);
  }

  lemma SetSorted(f: string -> nat, g: string -> nat, c: seq<Pair>, capacity: nat, k: string, v: string, n: nat)
    requires Distinct(c) && |c| <= capacity && capacity >= 1 && Sorted(f, c)
    requires forall x :: f(x) <= n && g(x) == if x == k then n + 1 else f(x)
    ensures Sorted(g, Step(c, capacity, Set(k, v)))
  {
    hide Step, Sorted, Distinct;
    SetIsNewest(c, capacity, k, v);
    var s := Step(c, capacity, Set(k, v));
    if Has(c, k) {
      var i :| 0 <= i < |c| && c[i].key == k && s == c[..i] + c[i + 1..] + [Pair(k, v)];
      SortedWithout(f, c, i);
      DroppedIsGone(c, i);
      SortedAppend(f, g, c[..i] + c[i + 1..], Pair(k, v), n);
    } else if |c| < capacity {
      SortedAppend(f, g, c, Pair(k, v), n);
    } else {
      SortedWithout(f, c, 0);
      assert c[..0] + c[1..] == c[1..];
      SortedAppend(f, g, c[1..], Pair(k, v), n);
    }
  }

  /** In every run the pairs lie in the order of their last uses. */
  lemma {:induction false} RunByUse(capacity: nat, ops: seq<Op>)
    requires capacity >= 1
    ensures Distinct(After(capacity, ops)) && |After(capacity, ops)| <= capacity
    ensures ByUse(capacity, ops, After(capacity, ops))
  {
    hide Step, ByUse;
    RunFits([], capacity, ops);
    if ops == [] {
      NothingByUse(capacity);
    } else {
      var init, op := ops[..|ops| - 1], ops[|ops| - 1];
      RunByUse(capacity, init);
      RunLast([], capacity, ops);
      StepByUse(capacity, init, op);
      assert init + [op] == ops;
    }
  }

  lemma NothingByUse(capacity: nat)
    ensures ByUse(capacity, [], [])
  {
  }

  /** An insertion into a full cache drops exactly one pair: the one whose last use is the oldest. */
  lemma EvictsTheOldest(capacity: nat, ops: seq<Op>, k: string, v: string) returns (p: Pair)
    requires capacity >= 1 && |After(capacity, ops)| == capacity && !Has(After(capacity, ops), k)
    ensures var c, s := After(capacity, ops), After(capacity, ops + [Set(k, v)]);
            && p in c && p !in s
            && (forall q :: q in s <==> q == Pair(k, v) || (q in c && q != p))
            && forall q :: q in c && q != p ==> LastUse(capacity, ops, p.key) < LastUse(capacity, ops, q.key)
  {
    var c, all := After(capacity, ops), ops + [Set(k, v)];
    RunByUse(capacity, ops);
    RunLast([], capacity, all);
    assert all[..|all| - 1] == ops;
    SetIsNewest(c, capacity, k, v);
    hide Step, LastUse;
    p := c[0];
    var s := After(capacity, all);
    assert s == c[1..] + [Pair(k, v)];
    forall q ensures q in s <==> q == Pair(k, v) || (q in c && q != p) {
      assert c == [c[0]] + c[1..];
    }
  }

  // ---- What a hit answers ----

  /** The value the key was last set to, unless it has been removed since. */
  function LastSet(ops: seq<Op>, k: string): Option<string> {
    if ops == [] then None
    else
      var op := ops[|ops| - 1];
      if op.Clear? then None
      else if op.Get? || op.key != k then LastSet(ops[..|ops| - 1], k)
      else if op.Set? then Some(op.value)
      else None
  }

  /** Where the pairs of a cache come from. */
  lemma StepMembers(c: seq<Pair>, capacity: nat, op: Op, p: Pair)
    requires Distinct(c) && p in Step(c, capacity, op)
    ensures !op.Clear?
    ensures if op.Set? && p.key == op.key then p.value == op.value
            else p in c && (op.Delete? ==> p.key != op.key)
  {
    hide Without, Lookup;
    if !op.Clear? {
      WithoutMembers(c, op.key);
      LookupFacts(c, op.key);
    }
  }

  /** In every run a pair holds what its key was last set to, so that is what a hit answers. */
  lemma {:induction false} HitsAnswerTheLastSet(capacity: nat, ops: seq<Op>)
    requires capacity >= 1
    ensures forall p :: p in After(capacity, ops) ==> LastSet(ops, p.key) == Some(p.value)
    ensures forall k :: Reply(After(capacity, ops), Get(k))
                     == if Has(After(capacity, ops), k) then LastSet(ops, k) else None
  {
    hide Step, LastUse, Lookup, ByUse, Distinct, After;
    if ops == [] {
      StartsEmpty(capacity);
    } else {
      var init, op := ops[..|ops| - 1], ops[|ops| - 1];
      HitsAnswerTheLastSet(capacity, init);
      RunByUse(capacity, init);
      AfterLast(capacity, ops);
      forall p | p in After(capacity, ops) ensures LastSet(ops, p.key) == Some(p.value) {
        StepMembers(After(capacity, init), capacity, op, p);
      }
    }
    forall k { LookupFacts(After(capacity, ops), k); }
  }

  lemma StartsEmpty(capacity: nat)
    ensures After(capacity, []) == []
  {
  }

  lemma AfterLast(capacity: nat, ops: seq<Op>)
    requires ops != []
    ensures After(capacity, ops) == Step(After(capacity, ops[..|ops| - 1]), capacity, ops[|ops| - 1])
  {
    RunLast([], capacity, ops);
  }
}
