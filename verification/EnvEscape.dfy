/** The value printer of the CLI and the unescape chain of its .env parser. */
module EnvEscape {
  import opened Text

  const BACKSLASH: char := '\\'

  /** What the printer writes between double quotes: four replacement passes. */
  function EscapeValue(raw: string): string {
    ReplaceAll(ReplaceAll(ReplaceAll(ReplaceAll(raw, "\\", "\\\\"), "\"", "\\\""), "\n", "\\n"), "\r", "\\r")
  }

  predicate NeedsQuotes(raw: string) {
    exists i :: 0 <= i < |raw| && (IsSpace(raw[i]) || raw[i] in "#'\"\\")
  }

  function SerializeEnvValue(raw: string): string {
    if raw == "" then ""
    else if NeedsQuotes(raw) then "\"" + EscapeValue(raw) + "\""
    else raw
  }

  /** What the parser does to a double-quoted value: five replacement passes. */
  function UnescapeValue(s: string): string {
    ReplaceAll(
      ReplaceAll(
        ReplaceAll(
          ReplaceAll(
            ReplaceAll(s, "\\n", "\n"),
            "\\r", "\r"),
          "\\t", "\t"),
        "\\\"", "\""),
      "\\\\", "\\")
  }

  /** True when position i holds n, r or t directly after a backslash. */
  predicate ControlLetterAt(v: string, i: nat)
    requires i < |v|
  {
    i > 0 && v[i - 1] == BACKSLASH && v[i] in "nrt"
  }

  function ControlOf(c: char): char {
    if c == 'n' then '\n' else if c == 'r' then '\r' else '\t'
  }

  /** v with every such letter turned into its control character, all else as it was. */
  function FoldControls(v: string): string {
    seq(|v|, i requires 0 <= i < |v| => if ControlLetterAt(v, i) then ControlOf(v[i]) else v[i])
  }

  /** The values that survive a print and a parse. */
  predicate Survives(v: string) {
    forall i :: 0 <= i < |v| ==> !ControlLetterAt(v, i)
  }

  // ---- The printer, one character at a time ----

  function EscapeChar(c: char): string {
    if c == '\\' then "\\\\"
    else if c == '"' then "\\\""
    else if c == '\n' then "\\n"
    else if c == '\r' then "\\r"
    else [c]
  }

  function EscapeChars(v: string): string {
    if v == "" then "" else EscapeChar(v[0]) + EscapeChars(v[1..])
  }

  lemma EscapeOneChar(c: char)
    ensures EscapeValue([c]) == EscapeChar(c)
  {
    var s := [c];
    assert s[..1] == s && s[1..] == "";
    assert forall p: char, rep | p != c :: ReplaceAll(s, [p], rep) == s;
    var s1 := ReplaceAll(s, "\\", "\\\\");
    if c == '\\' {
      ReplaceCharAbsent(s1, '"', "\\\"");
      ReplaceCharAbsent(s1, '\n', "\\n");
      ReplaceCharAbsent(s1, '\r', "\\r");
    } else {
      assert s1 == s;
      var s2 := ReplaceAll(s1, "\"", "\\\"");
      if c == '"' {
        ReplaceCharAbsent(s2, '\n', "\\n");
        ReplaceCharAbsent(s2, '\r', "\\r");
      } else {
        assert s2 == s;
        var s3 := ReplaceAll(s2, "\n", "\\n");
        if c == '\n' {
          ReplaceCharAbsent(s3, '\r', "\\r");
        } else {
          assert s3 == s;
        }
      }
    }
  }

  /** The four passes never see each other's output: they act on each character separately. */
  lemma {:induction false} EscapeActsPerCharacter(v: string)
    ensures EscapeValue(v) == EscapeChars(v)
  {
    if v == "" {
    } else {
      var h, t := [v[0]], v[1..];
      assert v == h + t;
      ReplaceCharConcat(h, t, '\\', "\\\\");
      var h1, t1 := ReplaceAll(h, "\\", "\\\\"), ReplaceAll(t, "\\", "\\\\");
      ReplaceCharConcat(h1, t1, '"', "\\\"");
      var h2, t2 := ReplaceAll(h1, "\"", "\\\""), ReplaceAll(t1, "\"", "\\\"");
      ReplaceCharConcat(h2, t2, '\n', "\\n");
      var h3, t3 := ReplaceAll(h2, "\n", "\\n"), ReplaceAll(t2, "\n", "\\n");
      ReplaceCharConcat(h3, t3, '\r', "\\r");
      EscapeOneChar(v[0]);
      EscapeActsPerCharacter(t);
    }
  }

  // ---- The unescape chain on any text ----

  predicate Escapes(c: char) {
    c in "nrt\""
  }

  /** What a backslash and the letter mean. */
  function Meant(c: char): char {
    if c == 'n' then '\n' else if c == 'r' then '\r' else if c == 't' then '\t' else c
  }

  /** Length of the leading unit of a text: a backslash takes the n, r, t or quote after it; of two backslashes the
      second may belong to the letter after it; any other character is on its own. */
  function UnitLength(s: string): (n: nat)
    requires s != ""
    ensures 1 <= n <= |s|
  {
    if s[0] != '\\' || |s| == 1 then 1
    else if Escapes(s[1]) then 2
    else if s[1] != '\\' then 1
    else if |s| > 2 && Escapes(s[2]) then 3
    else 2
  }

  function UnitReads(u: string): string
    requires u != ""
  {
    if |u| == 1 then u else if |u| == 2 then [Meant(u[1])] else ['\\', Meant(u[2])]
  }

  /** What the five passes make of a text: one reading from left to right, unit by unit. */
  function Unescaped(s: string): string {
    if s == "" then "" else UnitReads(s[..UnitLength(s)]) + Unescaped(s[UnitLength(s)..])
  }

  // Pass k replaces a backslash followed by LETTERS[k] with RESULTS[k].
  const LETTERS: string := "nrt\"\\"
  const RESULTS: string := "\n\r\t\"\\"

  function Pass(k: nat, s: string): string
    requires k < 5
  {
    ReplaceAll(s, [BACKSLASH, LETTERS[k]], [RESULTS[k]])
  }

  predicate IsUnit(u: string) {
    u != "" && UnitLength(u) == |u|
  }

  /** The index of the pass for this letter. */
  function PassOf(c: char): (k: nat)
    requires c in "nrt\"\\"
    ensures k < 5 && LETTERS[k] == c
  {
    if c == 'n' then 0 else if c == 'r' then 1 else if c == 't' then 2 else if c == '"' then 3 else 4
  }

  /** What a unit has become after the first k passes. */
  function UnitAfter(k: nat, u: string): string
    requires IsUnit(u)
  {
    if |u| == 1 then u
    else
      var c := u[|u| - 1];
      if k <= PassOf(c) then u
      else if |u| == 2 then [RESULTS[PassOf(c)]]
      else ['\\', RESULTS[PassOf(c)]]
  }

  function After(k: nat, s: string): string {
    if s == "" then ""
    else
      var n := UnitLength(s);
      UnitIsUnit(s);
      UnitAfter(k, s[..n]) + After(k, s[n..])
  }

  lemma UnitIsUnit(s: string)
    requires s != ""
    ensures IsUnit(s[..UnitLength(s)])
  {
  }

  lemma NoPassYet(u: string)
    requires IsUnit(u)
    ensures UnitAfter(0, u) == u
  {
  }

  lemma {:induction false} AfterNoPass(s: string)
    ensures After(0, s) == s
  {
    hide UnitLength, UnitAfter;
    if s == "" {
    } else {
      var n := UnitLength(s);
      UnitIsUnit(s);
      NoPassYet(s[..n]);
      AfterNoPass(s[n..]);
      assert s == s[..n] + s[n..];
    }
  }

  /** A text never starts with the letter a pending pass is looking for, unless it started so at first. */
  lemma AfterStart(k: nat, s: string)
    requires k < 5 && s != "" && !Escapes(s[0]) && (k == 4 ==> s[0] != '\\')
    ensures After(k, s) != "" && After(k, s)[0] != LETTERS[k]
  {
    UnitIsUnit(s);
    var u := s[..UnitLength(s)];
    assert UnitAfter(k, u) != "" && UnitAfter(k, u)[0] != LETTERS[k];
  }

  /** A pass leaves c where it is when c and the next character are not its pattern. */
  lemma SkipOne(c: char, r: string, pat: string, rep: string)
    requires |pat| == 2
    requires r == "" || c != pat[0] || r[0] != pat[1]
    ensures ReplaceAll([c] + r, pat, rep) == [c] + ReplaceAll(r, pat, rep)
  {
    var s := [c] + r;
    assert s[1..] == r;
    if r != "" {
      assert s[..2] == [c, r[0]];
    }
  }

  lemma TakeTwo(r: string, pat: string, rep: string)
    requires |pat| == 2
    ensures ReplaceAll(pat + r, pat, rep) == rep + ReplaceAll(r, pat, rep)
  {
    assert (pat + r)[..2] == pat && (pat + r)[2..] == r;
  }

  lemma SkipTwo(a: char, b: char, r: string, pat: string, rep: string)
    requires |pat| == 2
    requires a != pat[0] || b != pat[1]
    requires r == "" || b != pat[0] || r[0] != pat[1]
    ensures ReplaceAll([a, b] + r, pat, rep) == [a, b] + ReplaceAll(r, pat, rep)
  {
    SkipOne(b, r, pat, rep);
    SkipOne(a, [b] + r, pat, rep);
    assert [a] + ([b] + r) == [a, b] + r;
    assert [a] + ([b] + ReplaceAll(r, pat, rep)) == [a, b] + ReplaceAll(r, pat, rep);
  }

  /** One pass rewrites the leading unit alone, whatever follows it. */
  lemma PassUnit(k: nat, u: string, r: string)
    requires k < 5 && IsUnit(u)
    requires u == "\\" || (u == "\\\\" && k < 4) ==> r == "" || r[0] != LETTERS[k]
    ensures Pass(k, UnitAfter(k, u) + r) == UnitAfter(k + 1, u) + Pass(k, r)
  {
    hide ReplaceAll;
    var tok := UnitAfter(k, u);
    var pat, rep := [BACKSLASH, LETTERS[k]], [RESULTS[k]];
    if |tok| == 1 {
      assert tok == [tok[0]];
      SkipOne(tok[0], r, pat, rep);
    } else if |tok| == 2 {
      assert tok == [tok[0], tok[1]];
      if tok == pat {
        TakeTwo(r, pat, rep);
        assert UnitAfter(k + 1, u) == rep;
      } else {
        SkipTwo(tok[0], tok[1], r, pat, rep);
        assert UnitAfter(k + 1, u) == tok;
      }
    } else {
      assert tok == ['\\', '\\', u[2]];
      assert tok + r == ['\\'] + (['\\', u[2]] + r);
      if u[2] == LETTERS[k] {
        TakeTwo(r, pat, rep);
        assert pat + r == ['\\', u[2]] + r;
        SkipOne('\\', pat + r, pat, rep);
        assert UnitAfter(k + 1, u) == ['\\'] + rep;
      } else {
        SkipTwo('\\', u[2], r, pat, rep);
        SkipOne('\\', ['\\', u[2]] + r, pat, rep);
        assert UnitAfter(k + 1, u) == tok;
      }
    }
  }

  lemma {:induction false} PassAdvances(k: nat, s: string)
    requires k < 5
    ensures Pass(k, After(k, s)) == After(k + 1, s)
  {
    if s == "" {
    } else {
      var n := UnitLength(s);
      var u, rest := s[..n], s[n..];
      UnitIsUnit(s);
      if (u == "\\" || (u == "\\\\" && k < 4)) && rest != "" {
        AfterStart(k, rest);
      }
      PassUnit(k, u, After(k, rest));
      PassAdvances(k, rest);
    }
  }

  lemma ReadAfterAll(u: string)
    requires IsUnit(u)
    ensures UnitAfter(5, u) == UnitReads(u)
  {
  }

  /** Reading a unit is what all passes make of it. */
  lemma UnitMeans(s: string)
    requires s != ""
    ensures IsUnit(s[..UnitLength(s)])
    ensures Unescaped(s) == UnitAfter(5, s[..UnitLength(s)]) + Unescaped(s[UnitLength(s)..])
  {
    UnitIsUnit(s);
    ReadAfterAll(s[..UnitLength(s)]);
    hide UnitLength, UnitReads, UnitAfter;
  }

  lemma NothingMeans()
    ensures Unescaped("") == ""
  {
  }

  lemma {:induction false} AfterAllPasses(s: string)
    ensures After(5, s) == Unescaped(s)
  {
    hide Unescaped, UnitLength, UnitAfter;
    if s == "" {
      NothingMeans();
    } else {
      UnitIsUnit(s);
      UnitMeans(s);
      AfterAllPasses(s[UnitLength(s)..]);
    }
  }

  /** The five passes mean that one reading, for every text. */
  lemma UnescapeMeans(s: string)
    ensures UnescapeValue(s) == Unescaped(s)
  {
    hide After, Unescaped, ReplaceAll;
    AfterNoPass(s);
    PassAdvances(0, s);
    PassAdvances(1, s);
    PassAdvances(2, s);
    PassAdvances(3, s);
    PassAdvances(4, s);
    AfterAllPasses(s);
  }

  lemma EscapeReads(a: string, u: string, b: string)
    requires (a == "" || a[|a| - 1] != '\\') && u != "" && UnitLength(u + b) == |u|
    ensures UnescapeValue(a + u + b) == UnescapeValue(a) + UnitReads(u) + UnescapeValue(b)
  {
    hide Unescaped, UnescapeValue, UnitReads, UnitLength;
    UnescapedConcat(a, u + b);
    LeadingUnit(u, b);
    UnescapeMeans(a);
    UnescapeMeans(b);
    UnescapeMeans(a + u + b);
    assert a + u + b == a + (u + b);
  }

  /** After any text that does not end in a backslash, each escape is the character it stands for, whatever follows;
      and so is a doubled backslash, unless the second of the two belongs to the letter after it. */
  lemma EscapeStandsFor(a: string, b: string)
    requires a == "" || a[|a| - 1] != '\\'
    ensures UnescapeValue(a + "\\n" + b) == UnescapeValue(a) + "\n" + UnescapeValue(b)
    ensures UnescapeValue(a + "\\r" + b) == UnescapeValue(a) + "\r" + UnescapeValue(b)
    ensures UnescapeValue(a + "\\t" + b) == UnescapeValue(a) + "\t" + UnescapeValue(b)
    ensures UnescapeValue(a + "\\\"" + b) == UnescapeValue(a) + "\"" + UnescapeValue(b)
    ensures b == "" || b[0] !in "nrt\"" ==>
              UnescapeValue(a + "\\\\" + b) == UnescapeValue(a) + "\\" + UnescapeValue(b)
  {
    hide UnescapeValue;
    EscapeReads(a, "\\n", b);
    EscapeReads(a, "\\r", b);
    EscapeReads(a, "\\t", b);
    EscapeReads(a, "\\\"", b);
    if b == "" || b[0] !in "nrt\"" {
      EscapeReads(a, "\\\\", b);
    }
  }

  /** A text that starts with a unit reads as that unit and the rest. */
  lemma LeadingUnit(u: string, t: string)
    requires u != "" && UnitLength(u + t) == |u|
    ensures Unescaped(u + t) == UnitReads(u) + Unescaped(t)
  {
    hide UnitLength, UnitReads;
    assert (u + t)[..|u|] == u && (u + t)[|u|..] == t;
  }

  lemma SameUnit(a: string, b: string)
    requires a != "" && a[|a| - 1] != '\\'
    ensures UnitLength(a + b) == UnitLength(a)
  {
  }

  /** A reading starts afresh after any character but a backslash. */
  lemma {:induction false} UnescapedConcat(a: string, b: string)
    requires a == "" || a[|a| - 1] != '\\'
    ensures Unescaped(a + b) == Unescaped(a) + Unescaped(b)
  {
    hide Unescaped, UnitLength, UnitAfter;
    NothingMeans();
    if a == "" {
      assert a + b == b;
    } else {
      var n := UnitLength(a);
      SameUnit(a, b);
      UnitMeans(a);
      UnitMeans(a + b);
      assert (a + b)[..n] == a[..n] && (a + b)[n..] == a[n..] + b;
      UnescapedConcat(a[n..], b);
    }
  }

  /** Text without a backslash stays as it is. */
  lemma {:induction false} NoBackslashStays(s: string)
    requires '\\' !in s
    ensures UnescapeValue(s) == s
  {
    UnescapeMeans(s);
    if s == "" {
    } else {
      assert s[0] in s;
      NoBackslashStays(s[1..]);
      UnescapeMeans(s[1..]);
    }
  }

  // ---- The chain on what the printer writes ----

  /** Length of what the printer's reader takes at once: a backslash with its control letter, or one character. */
  function FoldLength(v: string): (n: nat)
    requires v != ""
    ensures 1 <= n <= |v|
  {
    if |v| >= 2 && ControlLetterAt(v, 1) then 2 else 1
  }

  function FoldOne(u: string): string
    requires u != ""
  {
    if |u| == 2 then [BACKSLASH, ControlOf(u[1])] else u
  }

  lemma FoldUnit(v: string)
    requires v != ""
    ensures var n := FoldLength(v); |FoldControls(v)| == |v| && FoldControls(v)[..n] == FoldOne(v[..n])
  {
  }

  /** Folding does not look across the end of a unit. */
  lemma FoldAfterUnit(v: string)
    requires v != ""
    ensures var n := FoldLength(v); FoldControls(v)[n..] == FoldControls(v[n..])
  {
    var n := FoldLength(v);
    var rest := v[n..];
    forall i | 0 <= i < |rest| ensures FoldControls(v)[n + i] == FoldControls(rest)[i] {
      assert rest[i] == v[n + i];
      if i > 0 {
        assert rest[i - 1] == v[n + i - 1];
      }
    }
  }

  /** The printed form of the first unit of v, and how it reads back. */
  lemma PrintedUnit(v: string)
    requires v != ""
    ensures var n := FoldLength(v); Unescaped(EscapeChars(v)) == FoldOne(v[..n]) + Unescaped(EscapeChars(v[n..]))
  {
    hide Unescaped;
    var n := FoldLength(v);
    var t := EscapeChars(v[n..]);
    if n == 2 {
      assert v[1..][1..] == v[2..];
      assert EscapeChars(v[1..]) == [v[1]] + t;
      assert EscapeChars(v) == ['\\', '\\', v[1]] + t;
      ControlReads(v[1], t);
    } else {
      if v[0] == '\\' {
        PrintedStart(v[1..]);
      }
      CharReads(v[0], t);
    }
  }

  lemma ControlReads(c: char, t: string)
    requires c in "nrt"
    ensures Unescaped(['\\', '\\', c] + t) == ['\\', ControlOf(c)] + Unescaped(t)
  {
    LeadingUnit(['\\', '\\', c], t);
  }

  lemma CharReads(c: char, t: string)
    requires c == '\\' ==> t == "" || !Escapes(t[0])
    ensures Unescaped(EscapeChar(c) + t) == [c] + Unescaped(t)
  {
    hide Unescaped;
    LeadingUnit(EscapeChar(c), t);
  }

  lemma PrintedStart(v: string)
    requires v == "" || v[0] !in "nrt"
    ensures EscapeChars(v) == "" || !Escapes(EscapeChars(v)[0])
  {
  }

  lemma {:induction false} PrintedReads(v: string)
    ensures Unescaped(EscapeChars(v)) == FoldControls(v)
  {
    hide FoldControls, Unescaped, EscapeChars;
    if v == "" {
      NothingReads();
    } else {
      var n := FoldLength(v);
      FoldUnit(v);
      FoldAfterUnit(v);
      PrintedUnit(v);
      PrintedReads(v[n..]);
      var f := FoldControls(v);
      assert f == f[..n] + f[n..];
    }
  }

  lemma NothingReads()
    ensures Unescaped(EscapeChars("")) == "" && FoldControls("") == ""
  {
  }

  /** The five passes applied to the output of the four, for every string. */
  lemma UnescapeAfterEscape(v: string)
    ensures UnescapeValue(EscapeValue(v)) == FoldControls(v)
  {
    EscapeActsPerCharacter(v);
    UnescapeMeans(EscapeChars(v));
    PrintedReads(v);
  }

  /** The exact domain on which the parser's chain undoes the printer's. */
  lemma RoundTripDomain(v: string)
    ensures UnescapeValue(EscapeValue(v)) == v <==> Survives(v)
  {
    UnescapeAfterEscape(v);
    if FoldControls(v) == v {
      forall i | 0 <= i < |v| ensures !ControlLetterAt(v, i) {
        assert FoldControls(v)[i] == v[i];
      }
    }
  }

  /** A value outside the domain: a backslash and the letter n come back as a backslash and a line feed. */
  lemma RoundTripFails()
    ensures UnescapeValue(EscapeValue("\\n")) == "\\\n" && !Survives("\\n")
  {
    UnescapeAfterEscape("\\n");
    assert ControlLetterAt("\\n", 1);
    assert FoldControls("\\n") == "\\\n";
  }

  /** Printed values stay on their line. */
  lemma {:induction false} EscapedHasNoLineBreak(v: string)
    ensures forall c :: c in EscapeValue(v) ==> c != '\n' && c != '\r'
  {
    EscapeActsPerCharacter(v);
    if v == "" {
    } else {
      EscapeActsPerCharacter(v[1..]);
      EscapedHasNoLineBreak(v[1..]);
    }
  }
}
