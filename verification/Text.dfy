/** String operations that the modelled programs take from their standard libraries. */
module Text {

  datatype Option<+T> = None | Some(value: T)

  /** Every non-overlapping occurrence of pat, left to right, becomes rep
      (JavaScript's replace with a global pattern, Go's strings.ReplaceAll). */
  function ReplaceAll(s: string, pat: string, rep: string): string
    requires pat != ""
  {
    if |s| < |pat| then s
    else if s[..|pat|] == pat then rep + ReplaceAll(s[|pat|..], pat, rep)
    else [s[0]] + ReplaceAll(s[1..], pat, rep)
  }

  /** A one-character pattern cannot straddle two halves. */
  lemma {:induction false} ReplaceCharConcat(a: string, b: string, c: char, rep: string)
    ensures ReplaceAll(a + b, [c], rep) == ReplaceAll(a, [c], rep) + ReplaceAll(b, [c], rep)
  {
    if a == "" {
      assert a + b == b;
    } else {
      assert (a + b)[..1] == a[..1] == [a[0]];
      assert (a + b)[1..] == a[1..] + b;
      ReplaceCharConcat(a[1..], b, c, rep);
    }
  }

  lemma {:induction false} ReplaceCharAbsent(s: string, c: char, rep: string)
    requires c !in s
    ensures ReplaceAll(s, [c], rep) == s
  {
    if s == "" {
    } else {
      assert s[0] in s && s[..1] == [s[0]];
      ReplaceCharAbsent(s[1..], c, rep);
      assert s == [s[0]] + s[1..];
    }
  }

  /** First index of c at or after i, or -1. */
  function IndexFrom(s: string, c: char, i: nat): (r: int)
    requires i <= |s|
    ensures r == -1 <==> c !in s[i..]
    ensures r != -1 ==> i <= r < |s| && s[r] == c && c !in s[i..r]
    decreases |s| - i
  {
    if i == |s| then -1
    else if s[i] == c then i
    else
      assert s[i..] == [s[i]] + s[i + 1..];
      var r := IndexFrom(s, c, i + 1);
      assert r != -1 ==> s[i..r] == [s[i]] + s[i + 1..r];
      r
  }

  /** The parts between line feeds; one more part than there are line feeds. */
  function SplitLines(s: string): (r: seq<string>)
    ensures |r| >= 1
  {
    if s == "" then [""]
    else
      var t := SplitLines(s[1..]);
      if s[0] == '\n' then [""] + t else [[s[0]] + t[0]] + t[1..]
  }

  function JoinLines(parts: seq<string>): string
    requires |parts| >= 1
  {
    if |parts| == 1 then parts[0] else parts[0] + "\n" + JoinLines(parts[1..])
  }

  lemma SplitCons(c: char, t: string)
    ensures SplitLines([c] + t)
         == if c == '\n' then [""] + SplitLines(t) else [[c] + SplitLines(t)[0]] + SplitLines(t)[1..]
  {
    assert ([c] + t)[1..] == t;
  }

  lemma ConsLine(c: char, a: seq<string>, b: seq<string>)
    requires a != []
    ensures [[c] + (a + b)[0]] + (a + b)[1..] == [[c] + a[0]] + a[1..] + b
    ensures [""] + (a + b) == [""] + a + b
  {
  }

  lemma SplitNone()
    ensures SplitLines("") == [""]
  {
  }

  /** A line with text before it splits like the line, with that text before its first part. */
  lemma {:induction false} SplitBehind(a: string, s: string)
    requires '\n' !in a
    ensures SplitLines(a + s) == [a + SplitLines(s)[0]] + SplitLines(s)[1..]
  {
    if a == "" {
      var parts := SplitLines(s);
      assert a + s == s && a + parts[0] == parts[0] && [parts[0]] + parts[1..] == parts;
    } else {
      var t := a[1..] + s;
      assert a[0] in a && a + s == [a[0]] + t;
      SplitCons(a[0], t);
      SplitBehind(a[1..], s);
      assert [a[0]] + (a[1..] + SplitLines(s)[0]) == a + SplitLines(s)[0];
    }
  }

  lemma {:induction false} SplitConcat(a: string, b: string)
    ensures SplitLines(a + "\n" + b) == SplitLines(a) + SplitLines(b)
  {
    hide *;
    SplitCons('\n', b);
    if a == "" {
      SplitNone();
      assert a + "\n" + b == ['\n'] + b;
    } else {
      var t := a[1..];
      SplitConcat(t, b);
      SplitCons(a[0], t);
      SplitCons(a[0], t + "\n" + b);
      ConsLine(a[0], SplitLines(t), SplitLines(b));
      assert a == [a[0]] + t;
      assert a + "\n" + b == [a[0]] + (t + "\n" + b);
    }
  }

  lemma {:induction false} SplitOneLine(s: string)
    requires '\n' !in s
    ensures SplitLines(s) == [s]
  {
    if s == "" {
    } else {
      assert s[0] in s;
      SplitOneLine(s[1..]);
      assert s == [s[0]] + s[1..];
    }
  }

  lemma {:induction false} SplitJoined(parts: seq<string>)
    requires |parts| >= 1
    requires forall p :: p in parts ==> '\n' !in p
    ensures SplitLines(JoinLines(parts)) == parts
  {
    SplitOneLine(parts[0]);
    if |parts| <= 1 {
    } else {
      SplitJoined(parts[1..]);
      SplitConcat(parts[0], JoinLines(parts[1..]));
    }
  }

  lemma {:induction false} SplitHasNoNewline(s: string)
    ensures forall p :: p in SplitLines(s) ==> '\n' !in p
  {
    if s == "" {
    } else {
      SplitHasNoNewline(s[1..]);
      var t := SplitLines(s[1..]);
      assert t[0] in t;
      forall p | p in SplitLines(s) ensures '\n' !in p {
        if s[0] != '\n' && p == [s[0]] + t[0] {
        } else if p != "" {
          assert p in t;
        }
      }
    }
  }

  /** JavaScript's WhiteSpace and LineTerminator characters: what trim removes and \s matches. */
  predicate IsSpace(c: char) {
    c in {'\t', '\n', '\U{0B}', '\U{0C}', '\r', ' ', '\U{A0}', '\U{1680}', '\U{2028}', '\U{2029}',
          '\U{202F}', '\U{205F}', '\U{3000}', '\U{FEFF}'}
    || '\U{2000}' <= c <= '\U{200A}'
  }

  function TrimStart(s: string): string {
    if s != "" && IsSpace(s[0]) then TrimStart(s[1..]) else s
  }

  function TrimEnd(s: string): string {
    if s != "" && IsSpace(s[|s| - 1]) then TrimEnd(s[..|s| - 1]) else s
  }

  function Trim(s: string): string {
    TrimEnd(TrimStart(s))
  }
}
