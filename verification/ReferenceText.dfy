/** What resolving means text by text: the plain parts stay, and each reference is looked up where it says. */
module ReferenceText {
  import opened Text
  import opened References

  predicate IsKey(key: string) {
    key != "" && forall i :: 0 <= i < |key| ==> KeyChar(key[i])
  }

  predicate IsScope(scope: string) {
    scope != "" && forall i :: 0 <= i < |scope| ==> ScopeChar(scope[i])
  }

  function ScopedRef(key: string, scope: string): string {
    "${secret:" + key + "@" + scope + "}"
  }

  // ---- Matches of a text with something before it ----

  function Shift(m: Match, n: nat): Match {
    Match(m.start + n, m.keyStart + n, m.keyEnd + n,
          if m.scopeStart == -1 then -1 else m.scopeStart + n,
          if m.scopeStart == -1 then -1 else m.scopeEnd + n, m.end + n)
  }

  function ShiftAll(ms: seq<Match>, n: nat): (r: seq<Match>)
    ensures |r| == |ms| && forall i :: 0 <= i < |ms| ==> r[i] == Shift(ms[i], n)
  {
    if ms == [] then [] else [Shift(ms[0], n)] + ShiftAll(ms[1..], n)
  }

  lemma {:induction false} SpanShift(a: string, s: string, i: nat, inClass: char -> bool)
    requires i <= |s|
    ensures Span(a + s, |a| + i, inClass) == |a| + Span(s, i, inClass)
    decreases |s| - i
  {
    if i < |s| && inClass(s[i]) {
      SpanShift(a, s, i + 1, inClass);
    }
  }

  lemma MatchAtShift(a: string, s: string, i: nat)
    requires i <= |s|
    ensures MatchAt(a + s, |a| + i)
         == match MatchAt(s, i) case None => None case Some(m) => Some(Shift(m, |a|))
  {
    hide Span;
    var k := i + |PREFIX|;
    if k <= |s| {
      assert (a + s)[|a| + i..|a| + k] == s[i..k];
      SpanShift(a, s, k, KeyChar);
      var e := Span(s, k, KeyChar);
      if e < |s| {
        SpanShift(a, s, e + 1, ScopeChar);
      }
    }
  }

  lemma {:induction false} FindAllShift(a: string, s: string, i: nat)
    requires i <= |s|
    ensures FindAll(a + s, |a| + i) == ShiftAll(FindAll(s, i), |a|)
    decreases |s| - i
  {
    hide MatchAt;
    if i < |s| {
      MatchAtShift(a, s, i);
      MatchAtStart(s, i);
      match MatchAt(s, i) {
        case None => FindAllShift(a, s, i + 1);
        case Some(m) =>
          if m.start < m.end <= |s| {
            FindAllShift(a, s, m.end);
          }
      }
    }
  }

  lemma {:induction false} PlainHasNoMatch(a: string, s: string, i: nat)
    requires '$' !in a && i <= |a|
    ensures FindAll(a + s, i) == FindAll(a + s, |a|)
    decreases |a| - i
  {
    if i < |a| {
      assert (a + s)[i] == a[i] && a[i] in a;
      var k := i + |PREFIX|;
      assert k <= |a + s| ==> (a + s)[i..k][0] == a[i] != PREFIX[0];
      PlainHasNoMatch(a, s, i + 1);
    }
  }

  // ---- Pieces of shifted matches ----

  lemma MatchShifts(a: string, s: string, m: Match)
    requires IsMatch(s, m)
    ensures IsMatch(a + s, Shift(m, |a|))
    ensures KeyOf(a + s, Shift(m, |a|)) == KeyOf(s, m) && TextOf(a + s, Shift(m, |a|)) == TextOf(s, m)
    ensures m.scopeStart != -1 ==>
              Shift(m, |a|).scopeStart != -1
              && (a + s)[Shift(m, |a|).scopeStart..Shift(m, |a|).scopeEnd] == s[m.scopeStart..m.scopeEnd]
  {
    hide MatchAt, IsMatch, Span;
    var t, k := a + s, Shift(m, |a|);
    MatchIsInside(s, m);
    MatchShape(s, m);
    MatchAtIsExact(s, m);
    MatchAtShift(a, s, m.start);
    MatchAtIsExact(t, k);
    assert t[k.keyStart..k.keyEnd] == s[m.keyStart..m.keyEnd] && t[k.start..k.end] == s[m.start..m.end];
    if m.scopeStart != -1 {
      assert t[k.scopeStart..k.scopeEnd] == s[m.scopeStart..m.scopeEnd];
    }
  }

  lemma PieceShifts(w: World, a: string, s: string, m: Match, env: EnvId, d: int)
    requires IsMatch(s, m) && d > 0
    ensures IsMatch(a + s, Shift(m, |a|)) && Piece(w, a + s, Shift(m, |a|), env, d) == Piece(w, s, m, env, d)
  {
    MatchShifts(a, s, m);
    hide IsMatch, Resolve;
  }

  lemma {:induction false} PiecesShift(w: World, a: string, s: string, ms: seq<Match>, env: EnvId, d: int)
    requires d > 0 && forall m :: m in ms ==> IsMatch(s, m)
    requires forall m :: m in ShiftAll(ms, |a|) ==> IsMatch(a + s, m)
    ensures Pieces(w, a + s, ShiftAll(ms, |a|), env, d) == Pieces(w, s, ms, env, d)
  {
    hide IsMatch, Piece;
    if ms == [] {
    } else {
      PieceShifts(w, a, s, ms[0], env, d);
      PiecesShift(w, a, s, ms[1..], env, d);
    }
  }

  lemma {:induction false} AssembleShifts(a: string, s: string, ms: seq<Match>, pieces: seq<string>, from: nat)
    requires Ordered(s, ms, from) && |pieces| == |ms| && Ordered(a + s, ShiftAll(ms, |a|), |a| + from)
    requires from <= |s|
    ensures Assemble(a + s, ShiftAll(ms, |a|), pieces, |a| + from) == Assemble(s, ms, pieces, from)
  {
    hide IsMatch, Assemble, ShiftAll;
    ShiftedFirst(ms, |a|);
    if ms == [] {
      NoneAssembled(a + s, |a| + from);
      NoneAssembled(s, from);
      assert (a + s)[|a| + from..] == s[from..];
    } else {
      var m := ms[0];
      OneAssembled(a + s, ShiftAll(ms, |a|), pieces, |a| + from);
      OneAssembled(s, ms, pieces, from);
      assert (a + s)[|a| + from..|a| + m.start] == s[from..m.start];
      AssembleShifts(a, s, ms[1..], pieces[1..], m.end);
    }
  }

  lemma ShiftedFirst(ms: seq<Match>, n: nat)
    ensures if ms == [] then ShiftAll(ms, n) == []
            else ShiftAll(ms, n)[0] == Shift(ms[0], n) && ShiftAll(ms, n)[1..] == ShiftAll(ms[1..], n)
  {
  }

  lemma NoneAssembled(s: string, from: nat)
    requires from <= |s|
    ensures Assemble(s, [], [], from) == s[from..]
  {
  }

  lemma OneAssembled(s: string, ms: seq<Match>, pieces: seq<string>, from: nat)
    requires ms != [] && Ordered(s, ms, from) && |pieces| == |ms|
    ensures Assemble(s, ms, pieces, from)
         == s[from..ms[0].start] + pieces[0] + Assemble(s, ms[1..], pieces[1..], ms[0].end)
  {
    hide IsMatch;
  }

  lemma OrderedStart(s: string, ms: seq<Match>, from: nat)
    requires ms != [] && Ordered(s, ms, from)
    ensures from <= ms[0].start <= ms[0].end <= |s| && Ordered(s, ms[1..], ms[0].end)
  {
  }

  lemma Cut(s: string, i: nat, j: nat, k: nat)
    requires i <= j <= k <= |s|
    ensures s[i..k] == s[i..j] + s[j..k] && s[i..] == s[i..|s|] && s[j..] == s[j..|s|]
  {
  }

  lemma AssembleFrom(s: string, ms: seq<Match>, pieces: seq<string>, i: nat, j: nat)
    requires i <= j <= |s| && Ordered(s, ms, i) && Ordered(s, ms, j) && |pieces| == |ms|
    ensures Assemble(s, ms, pieces, i) == s[i..j] + Assemble(s, ms, pieces, j)
  {
    hide IsMatch, Assemble, Ordered;
    if ms == [] {
      NoneAssembled(s, i);
      NoneAssembled(s, j);
      Cut(s, i, j, |s|);
    } else {
      OrderedStart(s, ms, j);
      OneAssembled(s, ms, pieces, i);
      OneAssembled(s, ms, pieces, j);
      Cut(s, i, j, ms[0].start);
      Regroup(s[i..j], s[j..ms[0].start], pieces[0], Assemble(s, ms[1..], pieces[1..], ms[0].end));
    }
  }

  lemma Regroup(a: string, b: string, c: string, d: string)
    ensures (a + b) + c + d == a + (b + c + d)
  {
  }

  /** A text whose matches are those of its end resolves to its beginning and the resolution of its end. */
  lemma EndResolves(w: World, a: string, s: string, env: EnvId, d: int, pieces: seq<string>)
    requires d > 0 && Ordered(a + s, ShiftAll(Matches(s), |a|), |a|) && |pieces| == |Matches(s)|
    requires forall m :: m in Matches(s) ==> IsMatch(s, m)
    requires forall m :: m in ShiftAll(Matches(s), |a|) ==> IsMatch(a + s, m)
    requires pieces == Pieces(w, a + s, ShiftAll(Matches(s), |a|), env, d)
    ensures Resolve(w, s, env, d) == Done(Assemble(a + s, ShiftAll(Matches(s), |a|), pieces, |a|))
  {
    hide IsMatch, Matches, Pieces, Resolve, ShiftAll;
    PiecesShift(w, a, s, Matches(s), env, d);
    AssembleShifts(a, s, Matches(s), pieces, 0);
    ResolveUnfolds(w, s, env, d);
  }

  // ---- The laws ----

  /** Text without a dollar sign stays, whatever follows. */
  lemma PlainStays(w: World, a: string, s: string, env: EnvId, d: int)
    requires '$' !in a && d > 0
    ensures Resolve(w, a + s, env, d) == Done(a + Resolve(w, s, env, d).text)
  {
    hide IsMatch, Pieces, Resolve, FindAll, ShiftAll, Assemble;
    var t := a + s;
    PlainHasNoMatch(a, s, 0);
    FindAllShift(a, s, 0);
    FindAllIsComplete(t, 0);
    FindAllIsComplete(t, |a|);
    var ms := Matches(t);
    assert ms == ShiftAll(Matches(s), |a|);
    OrderedAreMatches(t, ms, 0);
    OrderedAreMatches(s, Matches(s), 0);
    var pieces := Pieces(w, t, ms, env, d);
    EndResolves(w, a, s, env, d, pieces);
    ResolveUnfolds(w, t, env, d);
    AssembleFrom(t, ms, pieces, 0, |a|);
    assert t[0..|a|] == a;
  }

  /** A text that starts with a match: its piece, and the resolution of what follows it. */
  lemma MatchResolves(w: World, r: string, s: string, m: Match, env: EnvId, d: int)
    requires IsMatch(r + s, m) && m.start == 0 && m.end == |r| && d > 0
    ensures Resolve(w, r + s, env, d) == Done(Piece(w, r + s, m, env, d) + Resolve(w, s, env, d).text)
  {
    hide IsMatch, Pieces, Piece, Resolve, FindAll, MatchAt, ShiftAll, Assemble;
    var t := r + s;
    MatchIsInside(t, m);
    MatchAtIsExact(t, m);
    FirstFound(t, m);
    FindAllShift(r, s, 0);
    FindAllIsComplete(t, 0);
    FindAllIsComplete(t, |r|);
    var rest := ShiftAll(Matches(s), |r|);
    var ms := Matches(t);
    assert ms == [m] + rest && ms[1..] == rest;
    OrderedAreMatches(t, ms, 0);
    OrderedAreMatches(t, rest, |r|);
    OrderedAreMatches(s, Matches(s), 0);
    var pieces := Pieces(w, t, rest, env, d);
    EndResolves(w, r, s, env, d, pieces);
    ResolveUnfolds(w, t, env, d);
    OneMorePiece(w, t, ms, env, d);
    OneMoreAssembled(t, ms, [Piece(w, t, m, env, d)] + pieces);
  }

  lemma FirstFound(t: string, m: Match)
    requires m.start == 0 < m.end <= |t| && MatchAt(t, 0) == Some(m)
    ensures FindAll(t, 0) == [m] + FindAll(t, m.end)
  {
    hide MatchAt;
  }

  lemma OneMorePiece(w: World, s: string, ms: seq<Match>, env: EnvId, d: int)
    requires ms != [] && d > 0 && forall m :: m in ms ==> IsMatch(s, m)
    ensures forall m :: m in ms[1..] ==> IsMatch(s, m)
    ensures Pieces(w, s, ms, env, d) == [Piece(w, s, ms[0], env, d)] + Pieces(w, s, ms[1..], env, d)
  {
    hide IsMatch, Piece;
  }

  lemma OneMoreAssembled(s: string, ms: seq<Match>, pieces: seq<string>)
    requires ms != [] && Ordered(s, ms, 0) && |pieces| == |ms| && ms[0].start == 0
    ensures Assemble(s, ms, pieces, 0) == pieces[0] + Assemble(s, ms[1..], pieces[1..], ms[0].end)
  {
    hide IsMatch, Assemble;
    OneAssembled(s, ms, pieces, 0);
    assert s[0..0] == "";
  }

  /** An unscoped reference is looked up where it is read, and so is what it fetches. One that cannot be fetched stays
      as it is written. */
  lemma UnscopedReference(w: World, key: string, s: string, env: EnvId, d: int)
    requires IsKey(key) && d > 0
    ensures Resolve(w, Reference(key) + s, env, d)
         == Done((match w.fetch(env, key)
                  case Some(text) => Resolve(w, text, env, d - 1).text
                  case None => "${secret:" + key + "}") + Resolve(w, s, env, d).text)
  {
    hide Resolve;
    var r, k := Reference(key), 9 + |key|;
    var m := Match(0, 9, k, -1, -1, k + 1);
    var t := r + s;
    assert t[0..9] == PREFIX && t[9..k] == key && t[0..k + 1] == r;
    assert forall i :: 9 <= i < k ==> t[i] == key[i - 9];
    MatchResolves(w, r, s, m, env, d);
  }

  /** A scoped reference is looked up in the environment its scope names, wherever it is read, and what it fetches is
      resolved there. A scope that names none counts for nothing. */
  lemma ScopedReference(w: World, key: string, scope: string, s: string, env: EnvId, d: int, own: EnvId)
    requires IsKey(key) && IsScope(scope) && d > 0
    requires own == match w.parseId(scope) case Some(named) => named case None => env
    ensures Resolve(w, ScopedRef(key, scope) + s, env, d)
         == Done((match w.fetch(own, key)
                  case Some(text) => Resolve(w, text, own, d - 1).text
                  case None => "${secret:" + key + "@" + scope + "}") + Resolve(w, s, env, d).text)
  {
    hide Resolve;
    var r, k := ScopedRef(key, scope), 9 + |key|;
    var e := k + 1 + |scope|;
    var m := Match(0, 9, k, k + 1, e, e + 1);
    var t := r + s;
    assert t[0..9] == PREFIX && t[9..k] == key && t[k] == '@' && t[k + 1..e] == scope && t[0..e + 1] == r;
    assert forall i :: 9 <= i < k ==> t[i] == key[i - 9];
    assert forall i :: k + 1 <= i < e ==> t[i] == scope[i - k - 1];
    MatchResolves(w, r, s, m, env, d);
  }

  /** So a reference that names an environment is the plain reference read there. */
  lemma ScopeIsTheReader(w: World, key: string, scope: string, here: EnvId, there: EnvId, d: int)
    requires IsKey(key) && IsScope(scope) && d > 0 && w.parseId(scope) == Some(there) && w.fetch(there, key).Some?
    ensures Resolve(w, ScopedRef(key, scope), here, d) == Resolve(w, Reference(key), there, d)
  {
    hide Resolve;
    ScopedReference(w, key, scope, "", here, d, there);
    UnscopedReference(w, key, "", there, d);
    NothingResolves(w, here, d);
    NothingResolves(w, there, d);
    assert ScopedRef(key, scope) + "" == ScopedRef(key, scope) && Reference(key) + "" == Reference(key);
  }

  lemma NothingResolves(w: World, env: EnvId, d: int)
    requires d > 0
    ensures Resolve(w, "", env, d) == Done("")
  {
    hide Resolve, Assemble;
    ResolveUnfolds(w, "", env, d);
  }
}
