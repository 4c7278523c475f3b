/** ${secret:KEY} and ${secret:KEY@env-id} references inside secret values, and their bounded expansion. */
module References {
  import opened Text

  type EnvId = nat

  // ---- The reference pattern ----

  const PREFIX: string := "${secret:"

  predicate KeyChar(c: char) {
    'A' <= c <= 'Z' || '0' <= c <= '9' || c == '_'
  }

  predicate ScopeChar(c: char) {
    'a' <= c <= 'f' || '0' <= c <= '9' || c == '-'
  }

  function Reference(key: string): string {
    "${secret:" + key + "}"
  }

  /** Submatch positions; the scope positions are -1 when the reference names no environment. */
  datatype Match = Match(start: nat, keyStart: nat, keyEnd: nat, scopeStart: int, scopeEnd: int, end: nat)

  predicate AllIn(s: string, lo: nat, hi: nat, inClass: char -> bool)
    requires lo <= hi <= |s|
  {
    forall i :: lo <= i < hi ==> inClass(s[i])
  }

  /** The pattern as a grammar: m describes an occurrence in s. */
  predicate IsMatch(s: string, m: Match) {
    && m.keyStart == m.start + |PREFIX| < m.keyEnd < m.end <= |s|
    && s[m.start..m.keyStart] == PREFIX
    && AllIn(s, m.keyStart, m.keyEnd, KeyChar)
    && s[m.end - 1] == '}'
    && if m.scopeStart == -1 then m.scopeEnd == -1 && m.end == m.keyEnd + 1
       else
         && s[m.keyEnd] == '@'
         && m.keyEnd + 1 == m.scopeStart < m.scopeEnd == m.end - 1
         && AllIn(s, m.scopeStart, m.scopeEnd, ScopeChar)
  }

  /** End of the longest run of inClass characters from i. */
  function Span(s: string, i: nat, inClass: char -> bool): (r: nat)
    requires i <= |s|
    ensures i <= r <= |s| && AllIn(s, i, r, inClass) && (r < |s| ==> !inClass(s[r]))
    decreases |s| - i
  {
    if i < |s| && inClass(s[i]) then Span(s, i + 1, inClass) else i
  }

  /** The occurrence that starts at i, if one does. */
  function MatchAt(s: string, i: nat): Option<Match>
    requires i <= |s|
  {
    var k := i + |PREFIX|;
    if |s| < k || s[i..k] != PREFIX then None
    else
      var e := Span(s, k, KeyChar);
      if e == k || e == |s| then None
      else if s[e] == '}' then Some(Match(i, k, e, -1, -1, e + 1))
      else if s[e] != '@' then None
      else
        var f := Span(s, e + 1, ScopeChar);
        if f == e + 1 || f == |s| || s[f] != '}' then None
        else Some(Match(i, k, e, e + 1, f, f + 1))
  }

  /** Each start has at most one occurrence, and the scanner finds exactly it. */
  lemma MatchAtIsExact(s: string, m: Match)
    requires m.start <= |s|
    ensures IsMatch(s, m) <==> MatchAt(s, m.start) == Some(m)
  {
    if IsMatch(s, m) {
      var e := Span(s, m.keyStart, KeyChar);
      assert !KeyChar(s[m.keyEnd]);
      assert e == m.keyEnd;
      if m.scopeStart != -1 {
        assert !ScopeChar(s[m.scopeEnd]);
        assert Span(s, e + 1, ScopeChar) == m.scopeEnd;
      }
    }
  }

  lemma OnlyFirstIsDollar(s: string, m: Match, i: nat)
    requires IsMatch(s, m) && m.start < i < m.end
    ensures s[i] != '$'
  {
    if i < m.keyStart {
      assert s[i] == s[m.start..m.keyStart][i - m.start] == PREFIX[i - m.start];
    }
  }

  /** Occurrences never overlap. */
  lemma MatchesAreDisjoint(s: string, m: Match, n: Match)
    requires IsMatch(s, m) && IsMatch(s, n) && m.start < n.start
    ensures m.end <= n.start
  {
    assert s[n.start] == s[n.start..n.keyStart][0] == '$';
    if n.start < m.end {
      OnlyFirstIsDollar(s, m, n.start);
    }
  }

  /** Leftmost, then the leftmost after its end, and so on. */
  function FindAll(s: string, from: nat): seq<Match>
    requires from <= |s|
    decreases |s| - from
  {
    if from == |s| then []
    else match MatchAt(s, from)
      case None => FindAll(s, from + 1)
      case Some(m) => if m.start < m.end <= |s| then [m] + FindAll(s, m.end) else []
  }

  lemma MatchAtStart(s: string, i: nat)
    requires i <= |s|
    ensures MatchAt(s, i).Some? ==> MatchAt(s, i).value.start == i
  {
  }

  lemma MatchIsInside(s: string, m: Match)
    requires IsMatch(s, m)
    ensures m.start < m.end <= |s|
  {
  }

  lemma FirstMatch(s: string, from: nat)
    requires from < |s|
    ensures MatchAt(s, from).None? ==> forall m :: IsMatch(s, m) && from <= m.start ==> from + 1 <= m.start
    ensures MatchAt(s, from).Some? ==>
              var first := MatchAt(s, from).value;
              && IsMatch(s, first) && first.start == from < first.end <= |s|
              && forall m :: IsMatch(s, m) && from <= m.start ==> m == first || first.end <= m.start
  {
    hide MatchAt, IsMatch;
    MatchAtStart(s, from);
    forall m | IsMatch(s, m) ensures m.start < m.end <= |s| {
      MatchIsInside(s, m);
    }
    if MatchAt(s, from).Some? {
      var first := MatchAt(s, from).value;
      MatchAtIsExact(s, first);
      forall m | IsMatch(s, m) && from <= m.start ensures m == first || first.end <= m.start {
        MatchAtIsExact(s, m);
        if first.start < m.start {
          MatchesAreDisjoint(s, first, m);
        }
      }
    } else {
      forall m | IsMatch(s, m) && from <= m.start ensures from + 1 <= m.start {
        MatchAtIsExact(s, m);
      }
    }
  }

  /** Matches that lie one after the other inside s[from..]. */
  predicate Ordered(s: string, ms: seq<Match>, from: nat) {
    if ms == [] then from <= |s|
    else from <= ms[0].start < ms[0].end <= |s| && IsMatch(s, ms[0]) && Ordered(s, ms[1..], ms[0].end)
  }

  /** The match list holds every occurrence, once, from left to right. */
  lemma {:induction false} FindAllIsComplete(s: string, from: nat)
    requires from <= |s|
    ensures forall m :: m in FindAll(s, from) <==> IsMatch(s, m) && from <= m.start
    ensures Ordered(s, FindAll(s, from), from)
    decreases |s| - from
  {
    hide IsMatch, MatchAt;
    if from < |s| {
      FirstMatch(s, from);
      if MatchAt(s, from).None? {
        FindAllIsComplete(s, from + 1);
      } else {
        FindAllIsComplete(s, MatchAt(s, from).value.end);
      }
    } else {
      forall m | IsMatch(s, m) ensures m.start < from {
        MatchShape(s, m);
      }
    }
  }

  function Matches(s: string): (ms: seq<Match>)
    ensures Ordered(s, ms, 0)
  {
    FindAllIsComplete(s, 0);
    FindAll(s, 0)
  }

  predicate HasReferences(s: string) {
    Matches(s) != []
  }

  function KeyOf(s: string, m: Match): string
    requires IsMatch(s, m)
  {
    s[m.keyStart..m.keyEnd]
  }

  method ExtractRefs(value: string) returns (keys: seq<string>)
    ensures |keys| == |Matches(value)|
    ensures forall i :: 0 <= i < |keys| ==>
        IsMatch(value, Matches(value)[i]) && keys[i] == KeyOf(value, Matches(value)[i])
  {
    hide IsMatch, FindAll, Matches;
    var ms := Matches(value);
    OrderedAreMatches(value, ms, 0);
    keys := [];
    for i := 0 to |ms|
      invariant |keys| == i
      invariant forall j :: 0 <= j < i ==> IsMatch(value, ms[j]) && keys[j] == KeyOf(value, ms[j])
    {
      assert ms[i] in ms;
      keys := keys + [KeyOf(value, ms[i])];
    }
  }

  // ---- Putting pieces between the gaps ----

  /** s[from..] with each match replaced by its piece. */
  function Assemble(s: string, ms: seq<Match>, pieces: seq<string>, from: nat): string
    requires Ordered(s, ms, from) && |pieces| == |ms|
    decreases |ms|
  {
    if ms == [] then s[from..]
    else s[from..ms[0].start] + pieces[0] + Assemble(s, ms[1..], pieces[1..], ms[0].end)
  }

  function Verbatim(s: string, ms: seq<Match>): seq<string>
    requires forall m :: m in ms ==> IsMatch(s, m)
  {
    seq(|ms|, i requires 0 <= i < |ms| => assert ms[i] in ms; TextOf(s, ms[i]))
  }

  function TextOf(s: string, m: Match): string
    requires IsMatch(s, m)
  {
    s[m.start..m.end]
  }

  lemma {:induction false} OrderedAreMatches(s: string, ms: seq<Match>, from: nat)
    requires Ordered(s, ms, from)
    ensures forall m :: m in ms ==> IsMatch(s, m)
  {
    hide IsMatch;
    if ms == [] {
    } else {
      OrderedAreMatches(s, ms[1..], ms[0].end);
    }
  }

  /** Gaps and matches tile the input. */
  lemma {:induction false} MatchesTile(s: string, ms: seq<Match>, from: nat)
    requires Ordered(s, ms, from)
    requires forall m :: m in ms ==> IsMatch(s, m)
    ensures Assemble(s, ms, Verbatim(s, ms), from) == s[from..]
  {
    hide IsMatch;
    if ms == [] {
    } else {
      MatchesTile(s, ms[1..], ms[0].end);
      assert Verbatim(s, ms)[1..] == Verbatim(s, ms[1..]);
      var m := ms[0];
      assert s[from..] == s[from..m.start] + s[m.start..m.end] + s[m.end..];
    }
  }

  // ---- Resolve ----

  /** What a resolution sees: the secret stored under a key of an environment, and how identifiers parse. */
  datatype World = World(fetch: (EnvId, string) -> Option<string>, parseId: string -> Option<EnvId>)

  datatype Resolved = Done(text: string) | TooDeep(text: string)

  /** The environment a reference is looked up in: its own, when it names a well-formed one. */
  function ScopeOf(w: World, s: string, m: Match, env: EnvId): EnvId
    requires IsMatch(s, m)
  {
    if m.scopeStart == -1 then env
    else match w.parseId(s[m.scopeStart..m.scopeEnd])
      case Some(id) => id
      case None => env
  }

  function Fetched(w: World, s: string, m: Match, env: EnvId): Option<string>
    requires IsMatch(s, m)
  {
    w.fetch(ScopeOf(w, s, m, env), KeyOf(s, m))
  }

  function Resolve(w: World, value: string, env: EnvId, maxDepth: int): Resolved
    decreases if maxDepth < 0 then 0 else maxDepth, 1, 0
  {
    if maxDepth <= 0 then TooDeep(value)
    else
      var ms := Matches(value);
      OrderedAreMatches(value, ms, 0);
      Done(Assemble(value, ms, Pieces(w, value, ms, env, maxDepth), 0))
  }

  /** The replacement of one reference: itself if the fetch fails, the fetched text as it is below the depth limit. */
  function Piece(w: World, s: string, m: Match, env: EnvId, maxDepth: int): string
    requires IsMatch(s, m) && maxDepth > 0
    decreases maxDepth, 0, 0
  {
    match Fetched(w, s, m, env)
    case None => TextOf(s, m)
    case Some(text) => Resolve(w, text, ScopeOf(w, s, m, env), maxDepth - 1).text
  }

  function Pieces(w: World, s: string, ms: seq<Match>, env: EnvId, maxDepth: int): (r: seq<string>)
    requires forall m :: m in ms ==> IsMatch(s, m)
    requires maxDepth > 0
    ensures |r| == |ms|
    ensures forall i :: 0 <= i < |ms| ==> ms[i] in ms && r[i] == Piece(w, s, ms[i], env, maxDepth)
    decreases maxDepth, 0, |ms|
  {
    if ms == [] then []
    else [Piece(w, s, ms[0], env, maxDepth)] + Pieces(w, s, ms[1..], env, maxDepth)
  }

  /** Number of fetches made by one resolution. */
  function FetchCount(w: World, value: string, env: EnvId, maxDepth: int): nat
    decreases if maxDepth < 0 then 0 else maxDepth, 1, 0
  {
    if maxDepth <= 0 then 0
    else
      OrderedAreMatches(value, Matches(value), 0);
      FetchSum(w, value, Matches(value), env, maxDepth)
  }

  function FetchSum(w: World, s: string, ms: seq<Match>, env: EnvId, maxDepth: int): nat
    requires forall m :: m in ms ==> IsMatch(s, m)
    requires maxDepth > 0
    decreases maxDepth, 0, |ms|
  {
    if ms == [] then 0
    else FetchesOf(w, s, ms[0], env, maxDepth) + FetchSum(w, s, ms[1..], env, maxDepth)
  }

  function FetchesOf(w: World, s: string, m: Match, env: EnvId, maxDepth: int): nat
    requires IsMatch(s, m) && maxDepth > 0
    decreases maxDepth, 0, 0
  {
    1 + match Fetched(w, s, m, env)
        case None => 0
        case Some(text) => FetchCount(w, text, ScopeOf(w, s, m, env), maxDepth - 1)
  }

  lemma MatchShape(s: string, m: Match)
    requires IsMatch(s, m)
    ensures m.start < m.end <= |s| && m.keyStart <= m.keyEnd <= |s|
    ensures m.scopeStart == -1 || 0 <= m.scopeStart <= m.scopeEnd <= |s|
    ensures m.scopeStart == -1 <==> m.scopeEnd == -1
  {
  }

  /** A builder that holds the result up to last writes the next gap and piece. */
  lemma WriteNext(s: string, ms: seq<Match>, pieces: seq<string>, i: nat, last: nat, sb: string, whole: string)
    requires i < |ms| == |pieces| && Ordered(s, ms[i..], last)
    requires sb + Assemble(s, ms[i..], pieces[i..], last) == whole
    ensures IsMatch(s, ms[i]) && last <= ms[i].start < ms[i].end <= |s| && Ordered(s, ms[i + 1..], ms[i].end)
    ensures sb + s[last..ms[i].start] + pieces[i] + Assemble(s, ms[i + 1..], pieces[i + 1..], ms[i].end) == whole
  {
    assert ms[i..][0] == ms[i] && ms[i..][1..] == ms[i + 1..];
    assert pieces[i..][0] == pieces[i] && pieces[i..][1..] == pieces[i + 1..];
    var gap, rest := s[last..ms[i].start], Assemble(s, ms[i + 1..], pieces[i + 1..], ms[i].end);
    assert sb + (gap + pieces[i] + rest) == sb + gap + pieces[i] + rest;
  }

  lemma ResolveUnfolds(w: World, value: string, env: EnvId, maxDepth: int)
    requires maxDepth > 0
    ensures var ms := Matches(value);
            && (forall m :: m in ms ==> IsMatch(value, m))
            && Resolve(w, value, env, maxDepth) == Done(Assemble(value, ms, Pieces(w, value, ms, env, maxDepth), 0))
            && FetchCount(w, value, env, maxDepth) == FetchSum(w, value, ms, env, maxDepth)
            && (ms == [] ==>
                Resolve(w, value, env, maxDepth) == Done(value) && FetchCount(w, value, env, maxDepth) == 0)
            && ms[0..] == ms && Pieces(w, value, ms, env, maxDepth)[0..] == Pieces(w, value, ms, env, maxDepth)
  {
    OrderedAreMatches(value, Matches(value), 0);
    assert value[0..] == value;
  }

  /** The builder loop: gap, piece, and the position after the match; then the rest. */
  method ResolveReferences(w: World, value: string, env: EnvId, maxDepth: int) returns (r: Resolved, ghost fetches: nat)
    ensures r == Resolve(w, value, env, maxDepth)
    ensures fetches == FetchCount(w, value, env, maxDepth)
    decreases if maxDepth < 0 then 0 else maxDepth, 1
  {
    hide Resolve, FetchCount, Pieces;
    if maxDepth <= 0 {
      ResolveAtZero(w, value, env, maxDepth);
      return TooDeep(value), 0;
    }
    var ms := Matches(value);
    ResolveUnfolds(w, value, env, maxDepth);
    fetches := 0;
    if |ms| == 0 {
      return Done(value), 0;
    }
    ghost var pieces := Pieces(w, value, ms, env, maxDepth);
    ghost var whole := Assemble(value, ms, pieces, 0);
    var sb := "";
    var last: nat := 0;
    var i := 0;
    while i < |ms|
      invariant 0 <= i <= |ms| && last <= |value| && Ordered(value, ms[i..], last)
      invariant sb + Assemble(value, ms[i..], pieces[i..], last) == whole
      invariant fetches + FetchSum(w, value, ms[i..], env, maxDepth) == FetchCount(w, value, env, maxDepth)
    {
      var m := ms[i];
      WriteNext(value, ms, pieces, i, last, sb, whole);
      var piece, more := ResolveOne(w, value, m, env, maxDepth);
      sb := sb + value[last..m.start] + piece;
      fetches := fetches + more;
      last := m.end;
      i := i + 1;
    }
    assert ms[i..] == [];
    sb := sb + value[last..];
    r := Done(sb);
  }

  lemma ResolveAtZero(w: World, value: string, env: EnvId, maxDepth: int)
    requires maxDepth <= 0
    ensures Resolve(w, value, env, maxDepth) == TooDeep(value) && FetchCount(w, value, env, maxDepth) == 0
  {
  }

  /** The body of the loop for one match. */
  method ResolveOne(w: World, value: string, m: Match, env: EnvId, maxDepth: int)
    returns (piece: string, ghost fetches: nat)
    requires IsMatch(value, m) && maxDepth > 0
    ensures piece == Piece(w, value, m, env, maxDepth)
    ensures fetches == FetchesOf(w, value, m, env, maxDepth)
    decreases maxDepth, 0
  {
    var key := value[m.keyStart..m.keyEnd];
    var envID := env;
    if m.scopeStart != -1 && m.scopeEnd != -1 {
      var parsed := w.parseId(value[m.scopeStart..m.scopeEnd]);
      if parsed.Some? {
        envID := parsed.value;
      }
    }
    var resolved := w.fetch(envID, key);
    fetches := 1;
    if resolved.None? {
      return value[m.start..m.end], 1;
    }
    var inner, more := ResolveReferences(w, resolved.value, envID, maxDepth - 1);
    fetches := 1 + more;
    if inner.TooDeep? {
      piece := resolved.value;
    } else {
      piece := inner.text;
    }
  }
}
