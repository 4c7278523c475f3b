/** The unbounded expansion of references, and how the depth-bounded one relates to it. */
module Expansion {
  import opened Text
  import opened References

  /** Every chain of references that starts in value has at most d links that can be fetched. */
  ghost predicate ChainsWithin(w: World, value: string, env: EnvId, d: nat)
    decreases d
  {
    forall m :: m in Matches(value) && IsMatch(value, m) && Fetched(w, value, m, env).Some? ==>
      d > 0 && ChainsWithin(w, Fetched(w, value, m, env).value, ScopeOf(w, value, m, env), d - 1)
  }

  /** No chain from value is endless. */
  ghost predicate WellFounded(w: World, value: string, env: EnvId) {
    exists d: nat :: ChainsWithin(w, value, env, d)
  }

  lemma {:induction false} ChainsMonotone(w: World, value: string, env: EnvId, d: nat, e: nat)
    requires ChainsWithin(w, value, env, d) && d <= e
    ensures ChainsWithin(w, value, env, e)
    decreases d
  {
    forall m | m in Matches(value) && IsMatch(value, m) && Fetched(w, value, m, env).Some?
      ensures e > 0 && ChainsWithin(w, Fetched(w, value, m, env).value, ScopeOf(w, value, m, env), e - 1)
    {
      ChainsMonotone(w, Fetched(w, value, m, env).value, ScopeOf(w, value, m, env), d - 1, e - 1);
    }
  }

  lemma FetchedIsWellFounded(w: World, value: string, env: EnvId, m: Match)
    requires WellFounded(w, value, env)
    requires m in Matches(value) && IsMatch(value, m) && Fetched(w, value, m, env).Some?
    ensures WellFounded(w, Fetched(w, value, m, env).value, ScopeOf(w, value, m, env))
  {
    var d: nat :| ChainsWithin(w, value, env, d);
    assert ChainsWithin(w, Fetched(w, value, m, env).value, ScopeOf(w, value, m, env), d - 1);
  }

  /** Length of the longest chain. */
  ghost function Height(w: World, value: string, env: EnvId): (h: nat)
    requires WellFounded(w, value, env)
    ensures ChainsWithin(w, value, env, h)
    ensures forall d: nat :: ChainsWithin(w, value, env, d) ==> h <= d
  {
    hide ChainsWithin;
    var d: nat :| ChainsWithin(w, value, env, d);
    LeastFrom(w, value, env, d)
  }

  ghost function LeastFrom(w: World, value: string, env: EnvId, d: nat): (h: nat)
    requires ChainsWithin(w, value, env, d)
    ensures ChainsWithin(w, value, env, h)
    ensures forall e: nat :: ChainsWithin(w, value, env, e) ==> h <= e
  {
    hide ChainsWithin;
    if d > 0 && ChainsWithin(w, value, env, d - 1) then LeastFrom(w, value, env, d - 1)
    else
      assert forall e: nat :: ChainsWithin(w, value, env, e) ==> d <= e by {
        forall e: nat | ChainsWithin(w, value, env, e) ensures d <= e {
          if e < d {
            ChainsMonotone(w, value, env, e, d - 1);
          }
        }
      }
      d
  }

  /** Every reference replaced by the full expansion of what it fetches; failed references stay. No depth anywhere. */
  ghost function Expand(w: World, value: string, env: EnvId): string
    requires WellFounded(w, value, env)
    decreases Height(w, value, env), 1, 0
  {
    var ms := Matches(value);
    OrderedAreMatches(value, ms, 0);
    Assemble(value, ms, ExpandPieces(w, value, ms, env), 0)
  }

  lemma HeightDrops(w: World, value: string, env: EnvId, m: Match)
    requires WellFounded(w, value, env)
    requires m in Matches(value) && IsMatch(value, m) && Fetched(w, value, m, env).Some?
    ensures WellFounded(w, Fetched(w, value, m, env).value, ScopeOf(w, value, m, env))
    ensures Height(w, Fetched(w, value, m, env).value, ScopeOf(w, value, m, env)) < Height(w, value, env)
  {
    FetchedIsWellFounded(w, value, env, m);
    assert ChainsWithin(w, Fetched(w, value, m, env).value, ScopeOf(w, value, m, env), Height(w, value, env) - 1);
  }

  ghost function ExpandPieces(w: World, value: string, ms: seq<Match>, env: EnvId): (r: seq<string>)
    requires WellFounded(w, value, env)
    requires forall m :: m in ms ==> m in Matches(value) && IsMatch(value, m)
    ensures |r| == |ms|
    decreases Height(w, value, env), 0, |ms|
  {
    if ms == [] then []
    else [ExpandPiece(w, value, ms[0], env)] + ExpandPieces(w, value, ms[1..], env)
  }

  ghost function ExpandPiece(w: World, value: string, m: Match, env: EnvId): string
    requires WellFounded(w, value, env)
    requires m in Matches(value) && IsMatch(value, m)
    decreases Height(w, value, env), 0, 0
  {
    if Fetched(w, value, m, env).None? then TextOf(value, m)
    else
      HeightDrops(w, value, env, m);
      Expand(w, Fetched(w, value, m, env).value, ScopeOf(w, value, m, env))
  }

  /** A depth that covers every chain makes the bounded resolution the unbounded one; so does any larger depth. */
  lemma {:induction false} ResolveIsExpansion(w: World, value: string, env: EnvId, d: nat)
    requires d >= 1 && ChainsWithin(w, value, env, d)
    ensures Resolve(w, value, env, d) == Done(Expand(w, value, env))
    decreases d, 1, 0
  {
    var ms := Matches(value);
    OrderedAreMatches(value, ms, 0);
    PiecesAreExpansions(w, value, ms, env, d);
  }

  lemma {:induction false} PiecesAreExpansions(w: World, value: string, ms: seq<Match>, env: EnvId, d: nat)
    requires d >= 1 && ChainsWithin(w, value, env, d)
    requires forall m :: m in ms ==> m in Matches(value) && IsMatch(value, m)
    ensures Pieces(w, value, ms, env, d) == ExpandPieces(w, value, ms, env)
    decreases d, 0, |ms|
  {
    if ms == [] {
    } else {
      var m := ms[0];
      if Fetched(w, value, m, env).Some? {
        var text, scope := Fetched(w, value, m, env).value, ScopeOf(w, value, m, env);
        HeightDrops(w, value, env, m);
        assert ChainsWithin(w, text, scope, d - 1);
        if d > 1 {
          ResolveIsExpansion(w, text, scope, d - 1);
        } else {
          NoChainsIsVerbatim(w, text, scope);
        }
      }
      PiecesAreExpansions(w, value, ms[1..], env, d);
    }
  }

  /** Text none of whose references can be fetched is its own expansion. */
  lemma NoChainsIsVerbatim(w: World, value: string, env: EnvId)
    requires ChainsWithin(w, value, env, 0)
    ensures Expand(w, value, env) == value
  {
    var ms := Matches(value);
    OrderedAreMatches(value, ms, 0);
    VerbatimPieces(w, value, ms, env);
    MatchesTile(value, ms, 0);
    assert value[0..] == value;
  }

  lemma {:induction false} VerbatimPieces(w: World, value: string, ms: seq<Match>, env: EnvId)
    requires ChainsWithin(w, value, env, 0)
    requires forall m :: m in ms ==> m in Matches(value) && IsMatch(value, m)
    ensures WellFounded(w, value, env) && ExpandPieces(w, value, ms, env) == Verbatim(value, ms)
  {
    if ms == [] {
    } else {
      VerbatimPieces(w, value, ms[1..], env);
      assert Verbatim(value, ms) == [TextOf(value, ms[0])] + Verbatim(value, ms[1..]);
    }
  }

  lemma DeeperIsTheSame(w: World, value: string, env: EnvId, d: nat, e: nat)
    requires 1 <= d <= e && ChainsWithin(w, value, env, d)
    ensures Resolve(w, value, env, e) == Resolve(w, value, env, d)
  {
    ChainsMonotone(w, value, env, d, e);
    ResolveIsExpansion(w, value, env, d);
    ResolveIsExpansion(w, value, env, e);
  }

  // ---- The caller ----

  const CALLER_DEPTH: int := 5

  /** What a read of a secret answers. */
  function ReadValue(w: World, value: string, env: EnvId): string {
    if HasReferences(value) then
      match Resolve(w, value, env, CALLER_DEPTH)
      case Done(text) => text
      case TooDeep(_) => value
    else value
  }

  lemma ReadIsExpansion(w: World, value: string, env: EnvId)
    requires ChainsWithin(w, value, env, 5)
    ensures ReadValue(w, value, env) == Expand(w, value, env)
  {
    ResolveIsExpansion(w, value, env, 5);
    if !HasReferences(value) {
      assert ChainsWithin(w, value, env, 0);
      NoChainsIsVerbatim(w, value, env);
    }
  }

  /** On any store, cyclic or not, a read never sees the depth error, and never fails. */
  lemma ReadNeverTooDeep(w: World, value: string, env: EnvId, d: int)
    ensures Resolve(w, value, env, d).Done? <==> d >= 1
    ensures ReadValue(w, value, env) == Resolve(w, value, env, 5).text
  {
    if !HasReferences(value) {
      assert value[0..] == value;
    }
  }

  // ---- Work bound ----

  /** b + b^2 + ... + b^d, by Horner's rule. */
  function Geometric(b: nat, d: nat): nat {
    if d == 0 then 0 else b * (1 + Geometric(b, d - 1))
  }

  function Power(b: nat, d: nat): nat {
    if d == 0 then 1 else b * Power(b, d - 1)
  }

  function PowerSum(b: nat, d: nat): nat {
    if d == 0 then 0 else PowerSum(b, d - 1) + Power(b, d)
  }

  lemma {:induction false} PowerSumShift(b: nat, d: nat)
    ensures PowerSum(b, d + 1) == b * (1 + PowerSum(b, d))
  {
    assert Power(b, d + 1) == b * Power(b, d);
    if d > 0 {
      PowerSumShift(b, d - 1);
      var sum, p := 1 + PowerSum(b, d - 1), Power(b, d);
      assert b * sum + b * p == b * (sum + p);
    } else {
      assert PowerSum(b, 1) == PowerSum(b, 0) + Power(b, 1);
    }
  }

  lemma {:induction false} GeometricIsPowerSum(b: nat, d: nat)
    ensures Geometric(b, d) == PowerSum(b, d)
  {
    if d == 0 {
    } else {
      GeometricIsPowerSum(b, d - 1);
      PowerSumShift(b, d - 1);
    }
  }

  ghost predicate StoredAtMost(w: World, b: nat) {
    forall env, key :: w.fetch(env, key).Some? ==> |Matches(w.fetch(env, key).value)| <= b
  }

  ghost predicate StoredExactly(w: World, b: nat) {
    forall env, key :: w.fetch(env, key).Some? && |Matches(w.fetch(env, key).value)| == b
  }

  lemma {:induction false} CountBound(w: World, value: string, env: EnvId, b: nat, d: nat)
    requires StoredAtMost(w, b) && |Matches(value)| <= b
    ensures FetchCount(w, value, env, d) <= Geometric(b, d)
    decreases d, 1, 0
  {
    if d > 0 {
      OrderedAreMatches(value, Matches(value), 0);
      SumBound(w, value, Matches(value), env, b, d);
      var g, n := 1 + Geometric(b, d - 1), |Matches(value)|;
      assert n * g <= b * g by { MulLe(n, b, g); }
    }
  }

  lemma MulLe(n: nat, b: nat, g: nat)
    requires n <= b
    ensures n * g <= b * g
  {
  }

  lemma {:induction false} SumBound(w: World, value: string, ms: seq<Match>, env: EnvId, b: nat, d: nat)
    requires d > 0 && StoredAtMost(w, b)
    requires forall m :: m in ms ==> IsMatch(value, m)
    ensures FetchSum(w, value, ms, env, d) <= |ms| * (1 + Geometric(b, d - 1))
    decreases d, 0, |ms|
  {
    if ms == [] {
    } else {
      SumBound(w, value, ms[1..], env, b, d);
      var f := Fetched(w, value, ms[0], env);
      if f.Some? {
        CountBound(w, f.value, ScopeOf(w, value, ms[0], env), b, d - 1);
      }
      var g, n := 1 + Geometric(b, d - 1), |ms[1..]|;
      assert (n + 1) * g == n * g + g;
    }
  }

  /** At most b + b^2 + ... + b^d fetches when no text holds more than b references. */
  lemma FetchesAreBounded(w: World, value: string, env: EnvId, b: nat, d: nat)
    requires StoredAtMost(w, b) && |Matches(value)| <= b
    ensures FetchCount(w, value, env, d) <= PowerSum(b, d)
  {
    CountBound(w, value, env, b, d);
    GeometricIsPowerSum(b, d);
  }

  lemma {:induction false} CountExact(w: World, value: string, env: EnvId, b: nat, d: nat)
    requires StoredExactly(w, b) && |Matches(value)| == b
    ensures FetchCount(w, value, env, d) == Geometric(b, d)
    decreases d, 1, 0
  {
    if d > 0 {
      OrderedAreMatches(value, Matches(value), 0);
      SumExact(w, value, Matches(value), env, b, d);
    }
  }

  lemma {:induction false} SumExact(w: World, value: string, ms: seq<Match>, env: EnvId, b: nat, d: nat)
    requires d > 0 && StoredExactly(w, b)
    requires forall m :: m in ms ==> IsMatch(value, m)
    ensures FetchSum(w, value, ms, env, d) == |ms| * (1 + Geometric(b, d - 1))
    decreases d, 0, |ms|
  {
    hide Matches, Fetched, StoredExactly, IsMatch, Geometric;
    if ms == [] {
    } else {
      FetchedExactly(w, value, ms[0], env, b);
      SumExact(w, value, ms[1..], env, b, d);
      CountExact(w, Fetched(w, value, ms[0], env).value, ScopeOf(w, value, ms[0], env), b, d - 1);
      var g, n := 1 + Geometric(b, d - 1), |ms[1..]|;
      assert (n + 1) * g == n * g + g;
    }
  }

  lemma FetchedExactly(w: World, value: string, m: Match, env: EnvId, b: nat)
    requires StoredExactly(w, b) && IsMatch(value, m)
    ensures Fetched(w, value, m, env).Some? && |Matches(Fetched(w, value, m, env).value)| == b
  {
    hide Matches;
  }

  /** The bound is reached by a store in which every text has b references and every fetch succeeds. */
  lemma FetchBoundIsTight(w: World, value: string, env: EnvId, b: nat, d: nat)
    requires StoredExactly(w, b) && |Matches(value)| == b
    ensures FetchCount(w, value, env, d) == PowerSum(b, d)
  {
    CountExact(w, value, env, b, d);
    GeometricIsPowerSum(b, d);
  }

  /** b references to the same key, one after the other. */
  function Repeated(b: nat): string {
    seq(11 * b, j requires 0 <= j < 11 * b => "${secret:A}"[j % 11])
  }

  function RepeatedWorld(b: nat): World {
    World((env: EnvId, key: string) => Some(Repeated(b)), s => None)
  }

  lemma RepeatedAt(b: nat, i: nat, k: nat)
    requires i < b && k < 11
    ensures |Repeated(b)| == 11 * b && 11 * i + k < 11 * b && Repeated(b)[11 * i + k] == "${secret:A}"[k]
  {
    assert (11 * i + k) % 11 == k;
  }

  /** Wherever the text stands, it is a match. */
  lemma BlockMatches(s: string, o: nat)
    requires o + 11 <= |s| && forall k :: 0 <= k < 11 ==> s[o + k] == "${secret:A}"[k]
    ensures MatchAt(s, o) == Some(Match(o, o + 9, o + 10, -1, -1, o + 11))
  {
    var m := Match(o, o + 9, o + 10, -1, -1, o + 11);
    var block := s[o..o + 11];
    assert forall k :: 0 <= k < 11 ==> block[k] == s[o + k];
    assert block == "${secret:A}";
    assert block[..9] == PREFIX && s[o..o + 9] == block[..9];
    assert s[o + 9] == block[9] == 'A' && s[o + 10] == block[10] == '}';
    assert IsMatch(s, m);
    hide IsMatch, MatchAt;
    MatchAtIsExact(s, m);
  }

  lemma RepeatedMatch(b: nat, i: nat)
    requires i < b
    ensures MatchAt(Repeated(b), 11 * i) == Some(Match(11 * i, 11 * i + 9, 11 * i + 10, -1, -1, 11 * i + 11))
  {
    hide Repeated, MatchAt;
    forall k | 0 <= k < 11 ensures |Repeated(b)| == 11 * b && Repeated(b)[11 * i + k] == "${secret:A}"[k] {
      RepeatedAt(b, i, k);
    }
    RepeatedAt(b, i, 10);
    BlockMatches(Repeated(b), 11 * i);
  }

  lemma {:induction false} RepeatedCount(b: nat, i: nat)
    requires i <= b
    ensures |Repeated(b)| == 11 * b && |FindAll(Repeated(b), 11 * i)| == b - i
    decreases b - i
  {
    RepeatedLength(b);
    hide MatchAt, Repeated;
    if i == b {
    } else {
      RepeatedMatch(b, i);
      RepeatedCount(b, i + 1);
    }
  }

  lemma RepeatedLength(b: nat)
    ensures |Repeated(b)| == 11 * b
  {
  }

  /** Such a store exists for every b, so the bound is reached for every b and every depth. */
  lemma FetchBoundIsReached(env: EnvId, b: nat, d: nat)
    ensures StoredExactly(RepeatedWorld(b), b) && |Matches(Repeated(b))| == b
    ensures FetchCount(RepeatedWorld(b), Repeated(b), env, d) == PowerSum(b, d)
  {
    RepeatedCount(b, 0);
    hide Repeated, FindAll;
    FetchBoundIsTight(RepeatedWorld(b), Repeated(b), env, b, d);
  }

  // ---- The depth is exact ----

  /** A text that is one reference has that one match. */
  lemma OneReference(key: string)
    requires key != "" && forall i :: 0 <= i < |key| ==> KeyChar(key[i])
    ensures var s := Reference(key);
            var m := Match(0, 9, 9 + |key|, -1, -1, 10 + |key|);
            Matches(s) == [m] && IsMatch(s, m) && KeyOf(s, m) == key
  {
    var s := Reference(key);
    var m := Match(0, 9, 9 + |key|, -1, -1, 10 + |key|);
    assert s[9..9 + |key|] == key && s[0..9] == PREFIX;
    assert forall i :: 9 <= i < 9 + |key| ==> s[i] == key[i - 9];
    assert IsMatch(s, m);
    var ms := Matches(s);
    FindAllIsComplete(s, 0);
    assert m in ms;
    assert |s| == m.end;
    assert ms == [ms[0]] + ms[1..];
  }

  lemma {:induction false} LaterStart(s: string, ms: seq<Match>, from: nat, lo: nat)
    requires Ordered(s, ms, from) && ms != [] && ms[0].start >= lo
    ensures forall m :: m in ms ==> m.start >= lo
  {
    if |ms| <= 1 {
    } else {
      LaterStart(s, ms[1..], ms[0].end, lo);
    }
  }

  /** A chain of n + 1 links: the key of i letters A refers to the key of i + 1, and the last one holds x. */
  function ChainKey(i: nat): string {
    seq(i, _ => 'A')
  }

  function ChainWorld(n: nat): World {
    World((env: EnvId, key: string) =>
            if key == ChainKey(|key|) && 1 <= |key| <= n then Some(Reference(ChainKey(|key| + 1)))
            else if key == ChainKey(n + 1) then Some("x")
            else None,
          s => None)
  }

  lemma NoReferenceIn(s: string)
    requires |s| < 9
    ensures Matches(s) == []
  {
    assert Ordered(s, Matches(s), 0);
  }

  lemma ChainFetch(n: nat, i: nat, env: EnvId)
    requires 1 <= i <= n + 1
    ensures ChainWorld(n).fetch(env, ChainKey(i)) == Some(if i <= n then Reference(ChainKey(i + 1)) else "x")
  {
    ChainKeyIsKey(i);
    hide Reference, ChainKey;
  }

  lemma ChainKeyIsKey(i: nat)
    ensures |ChainKey(i)| == i && forall j :: 0 <= j < i ==> KeyChar(ChainKey(i)[j])
  {
  }

  lemma ChainStep(n: nat, i: nat, env: EnvId)
    requires 1 <= i <= n + 1
    ensures var s := Reference(ChainKey(i));
            var m := Match(0, 9, 9 + i, -1, -1, 10 + i);
            && Matches(s) == [m] && IsMatch(s, m) && ScopeOf(ChainWorld(n), s, m, env) == env
            && Fetched(ChainWorld(n), s, m, env) == Some(if i <= n then Reference(ChainKey(i + 1)) else "x")
  {
    ChainKeyIsKey(i);
    OneReference(ChainKey(i));
    ChainFetch(n, i, env);
  }

  function ChainNext(i: nat, n: nat): string {
    if i <= n then Reference(ChainKey(i + 1)) else "x"
  }

  lemma ChainUnfolds(n: nat, i: nat, env: EnvId, d: nat)
    requires 1 <= i <= n + 1 && d >= 1
    ensures Resolve(ChainWorld(n), Reference(ChainKey(i)), env, d)
         == Done(Resolve(ChainWorld(n), ChainNext(i, n), env, d - 1).text)
  {
    var w, s := ChainWorld(n), Reference(ChainKey(i));
    var m := Match(0, 9, 9 + i, -1, -1, 10 + i);
    ChainStep(n, i, env);
    assert m.end == |s|;
    hide IsMatch, Matches, ChainWorld, Reference, Resolve, Fetched, ScopeOf;
    OneMatchResolves(w, s, m, env, d);
  }

  lemma {:induction false} ChainResolves(n: nat, i: nat, env: EnvId, d: nat)
    requires 1 <= i <= n + 1 && d >= 1
    ensures Resolve(ChainWorld(n), Reference(ChainKey(i)), env, d)
         == Done(if i + d <= n + 1 then Reference(ChainKey(i + d)) else "x")
    decreases d
  {
    var w := ChainWorld(n);
    hide *;
    ChainUnfolds(n, i, env, d);
    ChainNextIs(i, n);
    if d == 1 {
      ResolveAtZero(ChainWorld(n), ChainNext(i, n), env, 0);
    } else if i <= n {
      ChainResolves(n, i + 1, env, d - 1);
    } else {
      PlainText(ChainWorld(n), env, d - 1);
    }
  }

  lemma PlainText(w: World, env: EnvId, d: nat)
    ensures ChainsWithin(w, "x", env, d) && (d >= 1 ==> Resolve(w, "x", env, d) == Done("x"))
  {
    NoReferenceIn("x");
    if d >= 1 {
      ResolveUnfolds(w, "x", env, d);
    }
  }

  lemma ChainNextIs(i: nat, n: nat)
    ensures ChainNext(i, n) == if i <= n then Reference(ChainKey(i + 1)) else "x"
  {
  }

  lemma OneMatchResolves(w: World, s: string, m: Match, env: EnvId, d: nat)
    requires d >= 1 && Matches(s) == [m] && IsMatch(s, m) && m.start == 0 && m.end == |s|
    ensures Resolve(w, s, env, d) == Done(Piece(w, s, m, env, d))
  {
    hide IsMatch, Matches;
    ResolveUnfolds(w, s, env, d);
    var pieces := Pieces(w, s, [m], env, d);
    assert pieces == [Piece(w, s, m, env, d)];
    assert [m][1..] == [] && pieces[1..] == [];
    assert Assemble(s, [m], pieces, 0) == s[0..0] + pieces[0] + s[m.end..];
    assert s[0..0] + pieces[0] + s[m.end..] == pieces[0];
  }

  lemma {:induction false} ChainHeight(n: nat, i: nat, env: EnvId)
    requires 1 <= i <= n + 1
    ensures ChainsWithin(ChainWorld(n), Reference(ChainKey(i)), env, n + 2 - i)
    decreases n + 1 - i
  {
    hide *;
    ChainNextIs(i, n);
    if i <= n {
      ChainHeight(n, i + 1, env);
    } else {
      PlainText(ChainWorld(n), env, n + 1 - i);
    }
    ChainLink(n, i, env, n + 2 - i);
  }

  lemma ChainLink(n: nat, i: nat, env: EnvId, d: nat)
    requires 1 <= i <= n + 1 && d > 0
    requires ChainsWithin(ChainWorld(n), ChainNext(i, n), env, d - 1)
    ensures ChainsWithin(ChainWorld(n), Reference(ChainKey(i)), env, d)
  {
    ChainStep(n, i, env);
    hide IsMatch, Matches, ChainWorld, Reference, ChainKey, Fetched, ScopeOf;
  }

  /** Depth d covers chains of d links but not of d + 1: for every d some store tells the two apart. */
  lemma DepthIsExact(env: EnvId, d: nat)
    requires d >= 1
    ensures var w, s := ChainWorld(d), Reference(ChainKey(1));
            && ChainsWithin(w, s, env, d + 1)
            && Expand(w, s, env) == "x"
            && Resolve(w, s, env, d) == Done(Reference(ChainKey(d + 1)))
  {
    hide *;
    var w, s := ChainWorld(d), Reference(ChainKey(1));
    ChainHeight(d, 1, env);
    ChainResolves(d, 1, env, d);
    ChainResolves(d, 1, env, d + 1);
    ResolveIsExpansion(w, s, env, d + 1);
  }
}
