/** The lines of a .env file by their layout: which lines declare a variable, and what a value's text means. */
module EnvLine {
  import opened Text
  import opened EnvEscape
  import opened EnvParser

  // ---- Trimming ----

  predicate AllSpace(s: string) {
    forall i :: 0 <= i < |s| ==> IsSpace(s[i])
  }

  predicate Trimmed(s: string) {
    s == "" || (!IsSpace(s[0]) && !IsSpace(s[|s| - 1]))
  }

  lemma {:induction false} TrimStartSplits(s: string) returns (pre: string)
    ensures s == pre + TrimStart(s) && AllSpace(pre)
    ensures TrimStart(s) == "" || !IsSpace(TrimStart(s)[0])
  {
    if s != "" && IsSpace(s[0]) {
      var rest := TrimStartSplits(s[1..]);
      pre := [s[0]] + rest;
      assert s == [s[0]] + s[1..];
    } else {
      pre := "";
    }
  }

  lemma {:induction false} TrimEndSplits(s: string) returns (post: string)
    ensures s == TrimEnd(s) + post && AllSpace(post)
    ensures TrimEnd(s) == "" || !IsSpace(TrimEnd(s)[|TrimEnd(s)| - 1])
  {
    if s != "" && IsSpace(s[|s| - 1]) {
      var rest := TrimEndSplits(s[..|s| - 1]);
      post := rest + [s[|s| - 1]];
      assert s == s[..|s| - 1] + [s[|s| - 1]];
    } else {
      post := "";
    }
  }

  lemma TrimSplits(s: string) returns (pre: string, post: string)
    ensures s == pre + Trim(s) + post && AllSpace(pre) && AllSpace(post) && Trimmed(Trim(s))
  {
    pre := TrimStartSplits(s);
    post := TrimEndSplits(TrimStart(s));
    var t := Trim(s);
    assert t != "" ==> t[0] == TrimStart(s)[0];
  }

  lemma {:induction false} TrimStartPadded(pre: string, x: string)
    requires AllSpace(pre) && (x == "" || !IsSpace(x[0]))
    ensures TrimStart(pre + x) == x
  {
    if pre == "" {
      assert pre + x == x;
    } else {
      assert (pre + x)[1..] == pre[1..] + x;
      TrimStartPadded(pre[1..], x);
    }
  }

  lemma {:induction false} TrimEndPadded(x: string, post: string)
    requires AllSpace(post) && (x == "" || !IsSpace(x[|x| - 1]))
    ensures TrimEnd(x + post) == x
  {
    if post == "" {
      assert x + post == x;
    } else {
      var s := x + post;
      assert s[..|s| - 1] == x + post[..|post| - 1];
      TrimEndPadded(x, post[..|post| - 1]);
    }
  }

  /** Trimming takes off exactly the space around. */
  lemma TrimPadded(pre: string, x: string, post: string)
    requires AllSpace(pre) && AllSpace(post) && Trimmed(x)
    ensures Trim(pre + x + post) == x
  {
    if x == "" {
      TrimStartPadded(pre + post, "");
      assert pre + x + post == (pre + post) + "";
    } else {
      TrimStartPadded(pre, x + post);
      TrimEndPadded(x, post);
      assert pre + x + post == pre + (x + post);
    }
  }

  lemma TrimIgnoresTail(s: string, post: string)
    requires AllSpace(post)
    ensures Trim(s + post) == Trim(s)
  {
    var p, q := TrimSplits(s);
    TrimPadded(p, Trim(s), q + post);
    assert p + Trim(s) + (q + post) == (p + Trim(s) + q) + post;
  }

  // ---- The declaration lines ----

  /** A line laid out as a declaration: space, perhaps the word export, the key, space, an equals sign, the rest. */
  datatype Layout = Layout(indent: string, exported: bool, gap: string, pad: string, value: string)

  function LayOut(l: Layout, key: string): string {
    l.indent + (if l.exported then "export " + l.gap else "") + (key + l.pad + "=" + l.value)
  }

  /** The word export with a space after it is never the key itself. */
  predicate IsLayout(line: string, l: Layout, key: string, rest: string) {
    && AllSpace(l.indent) && AllSpace(l.gap) && AllSpace(l.pad)
    && ValidKey(key) && rest == Trim(l.value)
    && line == LayOut(l, key)
    && (!l.exported ==> !(key == "export" && " " <= l.pad))
  }

  lemma ValidKeyIsTrimmed(key: string)
    requires ValidKey(key)
    ensures key != "" && Trimmed(key) && '=' !in key && ' ' !in key && !IsSpace(key[0]) && key[0] != '#'
  {
  }

  /** key, space, equals sign, value with no space after it: that text is trimmed, and cut at the equals sign. */
  lemma CoreReads(key: string, pad: string, v: string)
    requires ValidKey(key) && AllSpace(pad) && (v == "" || !IsSpace(v[|v| - 1]))
    ensures var core := key + pad + "=" + v;
            Trimmed(core) && core[0] == key[0] && IndexFrom(core, '=', 0) == |key + pad|
            && core[..|key + pad|] == key + pad && core[|key + pad| + 1..] == v && Trim(key + pad) == key
  {
    hide ValidKey, Trim, IndexFrom;
    ValidKeyIsTrimmed(key);
    TrimPadded("", key, pad);
    assert "" + key + pad == key + pad;
    FirstEquals(key + pad, v);
    var core := key + pad + "=" + v;
    assert core[|core| - 1] == if v == "" then '=' else v[|v| - 1];
  }

  lemma FirstEquals(s: string, v: string)
    requires '=' !in s
    ensures var core := s + "=" + v;
            IndexFrom(core, '=', 0) == |s| && core[..|s|] == s && core[|s| + 1..] == v
  {
    hide IndexFrom;
    var core, n := s + "=" + v, |s|;
    assert core[0..] == core && core[n] == '=';
    assert forall j :: 0 <= j < n ==> core[j] == s[j] != '=';
    assert forall r :: n < r <= |core| ==> core[n] in core[0..r];
  }

  /** A text that starts with a key starts with the word export and a space only if that is the key. */
  lemma NoExportHere(key: string, pad: string, v: string)
    requires ValidKey(key) && AllSpace(pad) && !(key == "export" && " " <= pad)
    ensures !("export " <= key + pad + "=" + v)
  {
    ValidKeyIsTrimmed(key);
    hide ValidKey, Trimmed;
    var core, e := key + pad + "=" + v, "export ";
    var n := |key|;
    if n >= 7 {
      assert key[6] in key && core[6] == key[6];
      NotAPrefix(e, core, 6);
    } else if n == 6 {
      assert core[..6] == key && core[6] == if pad == "" then '=' else pad[0];
      if key == "export" {
        NotAPrefix(e, core, 6);
      } else {
        assert e[..6] == "export";
      }
    } else {
      assert core[n] == if pad == "" then '=' else pad[0];
      assert e[n] in "export";
      NotAPrefix(e, core, n);
    }
  }

  lemma NotAPrefix(e: string, s: string, k: nat)
    requires k < |e| && k < |s| && s[k] != e[k]
    ensures !(e <= s)
  {
  }

  function WithoutExport(trimmed: string): string {
    if "export " <= trimmed then Trim(trimmed[7..]) else trimmed
  }

  /** What trimming and taking off the word export make of a laid-out line. */
  lemma ExportedCore(line: string, pre: string, gap: string, core: string, post: string)
    requires AllSpace(pre) && AllSpace(gap) && AllSpace(post) && core != "" && Trimmed(core)
    requires line == pre + ("export " + gap + core) + post
    ensures Trim(line) != "" && Trim(line)[0] != '#' && WithoutExport(Trim(line)) == core
  {
    hide Trim, AllSpace, IsSpace;
    var x := "export " + gap + core;
    assert x == "export " + (gap + core);
    ExportedTrimmed(x, core);
    TrimPadded(pre, x, post);
    NoSpace();
    assert x[7..] == gap + core + "" && "export " <= x;
    TrimPadded(gap, core, "");
  }

  lemma PlainCore(line: string, pre: string, core: string, post: string)
    requires AllSpace(pre) && AllSpace(post) && core != "" && Trimmed(core) && core[0] != '#' && !("export " <= core)
    requires line == pre + core + post
    ensures Trim(line) != "" && Trim(line)[0] != '#' && WithoutExport(Trim(line)) == core
  {
    hide Trim, AllSpace, IsSpace;
    TrimPadded(pre, core, post);
  }

  lemma DeclarationOfCore(line: string, pre: string, exported: bool, gap: string, key: string, pad: string, v: string,
                          post: string)
    requires AllSpace(pre) && AllSpace(gap) && AllSpace(pad) && AllSpace(post)
    requires ValidKey(key) && (v == "" || !IsSpace(v[|v| - 1]))
    requires line == pre + ((if exported then "export " + gap else "") + (key + pad + "=" + v)) + post
    requires !exported ==> !(key == "export" && " " <= pad)
    ensures Declaration(line) == Some(Entry(key, Trim(v)))
  {
    hide Declaration, Trim, ValidKey, AllSpace, Trimmed, IndexFrom;
    var core := key + pad + "=" + v;
    CoreReads(key, pad, v);
    ValidKeyIsTrimmed(key);
    if exported {
      assert "export " + gap + core == "export " + gap + (key + pad + "=" + v);
      ExportedCore(line, pre, gap, core, post);
    } else {
      assert "" + core == core;
      NoExportHere(key, pad, v);
      PlainCore(line, pre, core, post);
    }
    DeclarationFromParts(line, core, |key + pad|);
  }

  lemma DeclarationFromParts(line: string, decl: string, eq: nat)
    requires Trim(line) != "" && Trim(line)[0] != '#' && decl == WithoutExport(Trim(line))
    requires eq < |decl| && IndexFrom(decl, '=', 0) == eq && ValidKey(Trim(decl[..eq]))
    ensures Declaration(line) == Some(Entry(Trim(decl[..eq]), Trim(decl[eq + 1..])))
  {
    hide Trim, ValidKey, IndexFrom;
  }

  lemma ExportedTrimmed(x: string, core: string)
    requires "export " <= x && |core| <= |x| && x[|x| - |core|..] == core && core != "" && Trimmed(core)
    ensures Trimmed(x)
  {
    assert x[0] == 'e' && x[|x| - 1] == core[|core| - 1];
  }

  lemma LayoutDeclares(line: string, l: Layout, key: string, rest: string)
    requires IsLayout(line, l, key, rest)
    ensures Declaration(line) == Some(Entry(key, rest))
  {
    var post := TrimEndSplits(l.value);
    var v := TrimEnd(l.value);
    var head := if l.exported then "export " + l.gap else "";
    Regroup(l.indent, head, key + l.pad + "=", v, post);
    TrimIgnoresTail(v, post);
    DeclarationOfCore(line, l.indent, l.exported, l.gap, key, l.pad, v, post);
  }

  lemma Regroup(a: string, b: string, c: string, d: string, e: string)
    ensures a + b + (c + (d + e)) == a + (b + (c + d)) + e
  {
  }

  /** The text before the equals sign of a trimmed declaration is its key and space. */
  lemma KeyFirst(decl: string, eq: nat) returns (pad: string)
    requires eq < |decl| && Trimmed(decl) && decl[eq] == '='
    ensures AllSpace(pad) && decl == Trim(decl[..eq]) + pad + "=" + decl[eq + 1..]
  {
    var key := Trim(decl[..eq]);
    var p, q := TrimSplits(decl[..eq]);
    pad := q;
    assert decl == decl[..eq] + "=" + decl[eq + 1..];
  }

  lemma CutDeclaration(line: string, key: string, rest: string) returns (eq: nat)
    requires Declaration(line) == Some(Entry(key, rest))
    ensures var decl := WithoutExport(Trim(line));
            && eq < |decl| && decl[eq] == '=' && key == Trim(decl[..eq]) && ValidKey(key)
            && rest == Trim(decl[eq + 1..])
  {
    hide Trim, ValidKey;
    eq := IndexFrom(WithoutExport(Trim(line)), '=', 0);
  }

  lemma ExportSplits(trimmed: string) returns (gap: string, tail: string)
    requires Trimmed(trimmed)
    ensures AllSpace(gap) && AllSpace(tail) && Trimmed(WithoutExport(trimmed))
    ensures trimmed == (if "export " <= trimmed then "export " + gap else "") + WithoutExport(trimmed) + tail
  {
    hide Trim, Trimmed, AllSpace;
    if "export " <= trimmed {
      gap, tail := TrimSplits(trimmed[7..]);
      assert trimmed == "export " + (gap + WithoutExport(trimmed) + tail);
    } else {
      NoSpace();
      gap, tail := "", "";
    }
  }

  lemma DeclarationLaysOut(line: string, key: string, rest: string) returns (l: Layout)
    requires Declaration(line) == Some(Entry(key, rest))
    ensures IsLayout(line, l, key, rest)
  {
    hide Declaration, Trim, ValidKey, AllSpace, Trimmed;
    var eq := CutDeclaration(line, key, rest);
    var trimmed := Trim(line);
    var decl := WithoutExport(trimmed);
    var pre, post := TrimSplits(line);
    var exported := "export " <= trimmed;
    var gap, tail := ExportSplits(trimmed);
    var pad := KeyFirst(decl, eq);
    var after := decl[eq + 1..];
    l := Layout(pre, exported, gap, pad, after + (tail + post));
    SpaceJoins(tail, post);
    TrimIgnoresTail(after, tail + post);
    LaidOut(line, l, key, decl, tail, post, after);
    if key == "export" && " " <= pad {
      StartsWithExport(decl, pad, after);
    }
  }

  lemma StartsWithExport(decl: string, pad: string, after: string)
    requires decl == "export" + pad + "=" + after && " " <= pad
    ensures "export " <= decl
  {
    assert decl[..7] == "export ";
  }

  lemma SpaceJoins(a: string, b: string)
    requires AllSpace(a) && AllSpace(b)
    ensures AllSpace(a + b)
  {
  }

  lemma NoSpace()
    ensures AllSpace("")
  {
  }

  lemma LaidOut(line: string, l: Layout, key: string, decl: string, tail: string, post: string, after: string)
    requires line == l.indent + ((if l.exported then "export " + l.gap else "") + decl + tail) + post
    requires decl == key + l.pad + "=" + after && l.value == after + (tail + post)
    ensures line == LayOut(l, key)
  {
    var head := if l.exported then "export " + l.gap else "";
    assert head + decl + tail == head + (decl + tail);
    assert key + l.pad + "=" + (after + (tail + post)) == decl + tail + post;
    assert l.indent + (head + (decl + tail)) + post == l.indent + head + (decl + tail + post);
  }

  ghost predicate Declares(line: string, key: string, rest: string) {
    exists l :: IsLayout(line, l, key, rest)
  }

  /** The parser takes exactly the lines of that layout as declarations, with that key and that trimmed rest. */
  lemma DeclarationIsExact(line: string, key: string, rest: string)
    ensures Declaration(line) == Some(Entry(key, rest)) <==> Declares(line, key, rest)
  {
    hide Declaration, IsLayout;
    if Declaration(line) == Some(Entry(key, rest)) {
      var l := DeclarationLaysOut(line, key, rest);
    }
    if Declares(line, key, rest) {
      var l :| IsLayout(line, l, key, rest);
      LayoutDeclares(line, l, key, rest);
    }
  }

  // ---- Values ----

  predicate CommentAt(s: string, i: nat) {
    i + 1 < |s| && IsSpace(s[i]) && s[i + 1] == '#'
  }

  lemma {:induction false} CommentIsFirst(s: string, i: nat)
    ensures var r := CommentFrom(s, i);
            if r == -1 then forall j :: j >= i ==> !CommentAt(s, j)
            else r >= i && CommentAt(s, r) && forall j :: i <= j < r ==> !CommentAt(s, j)
    decreases |s| - i
  {
    if i + 1 >= |s| {
    } else {
      CommentIsFirst(s, i + 1);
    }
  }

  /** An unquoted value ends before the first # that space precedes; a # elsewhere belongs to it. */
  lemma InlineCommentDropped(v: string, c: char, comment: string)
    requires IsSpace(c) && forall j :: 0 <= j < |v| ==> !CommentAt(v + [c], j)
    ensures PlainValue(v + [c] + "#" + comment) == Trim(v)
    ensures PlainValue(v) == Trim(v)
  {
    var s := v + [c] + "#" + comment;
    CommentIsFirst(s, 0);
    CommentIsFirst(v, 0);
    assert CommentAt(s, |v|);
    forall j: nat | j < |v| ensures !CommentAt(s, j) && !CommentAt(v, j) {
      assert !CommentAt(v + [c], j);
    }
    assert s[..|v|] == v;
  }

  lemma {:induction false} SingleCloses(s: string, i: nat, n: nat)
    requires i <= n < |s| && s[n] == '\'' && '\'' !in s[i..n]
    ensures CloseFrom(s, '\'', i) == n
    decreases n - i
  {
    if i == n {
    } else {
      assert s[i] == s[i..n][0];
      assert s[i + 1..n] == s[i..n][1..];
      SingleCloses(s, i + 1, n);
    }
  }

  /** A single-quoted value is the text between its quotes as it stands, line breaks and backslashes included. */
  lemma SingleQuotedIsVerbatim(lines: seq<string>, i: nat, body: string, text: string, rest: string)
    requires i < |lines| && Left(lines, i, body) == text + "'" + rest && '\'' !in text
    ensures ValueAt(lines, i, "'" + body) == (text, i + CountNewlines(text))
  {
    var left := text + "'" + rest;
    assert left[0..|text|] == text == left[..|text|];
    SingleCloses(left, 0, |text|);
    assert ("'" + body)[1..] == body;
  }

  lemma {:induction false} RunInPrefix(s: string, t: string, i: nat)
    requires i <= |s| && s <= t
    ensures BackslashRun(t, i) == BackslashRun(s, i)
  {
    if i > 0 {
      RunInPrefix(s, t, i - 1);
    }
  }

  lemma RunAtStart(s: string)
    ensures BackslashRun(s, 0) == 0
  {
  }

  lemma QuoteCloses(text: string, rest: string)
    requires BackslashRun(text, |text|) % 2 == 0 && forall j :: 0 <= j < |text| ==> !Closes(text, '"', j)
    ensures CloseFrom(text + "\"" + rest, '"', 0) == |text|
  {
    hide CloseFrom, BackslashRun;
    var left := text + "\"" + rest;
    RunAtStart(left);
    CloseIsFirstClosing(left, '"', 0);
    RunInPrefix(text, left, |text|);
    forall j | 0 <= j < |text| ensures !Closes(left, '"', j) {
      RunInPrefix(text, left, j);
      assert left[j] == text[j] && !Closes(text, '"', j);
    }
    assert Closes(left, '"', |text|);
  }

  lemma QuotedTextReads(lines: seq<string>, i: nat, body: string, text: string, rest: string)
    requires i < |lines| && Left(lines, i, body) == text + "\"" + rest
    requires CloseFrom(Left(lines, i, body), '"', 0) == |text|
    ensures QuotedText(lines, i, body, '"') == (text, i + CountNewlines(text))
  {
    hide CloseFrom, Left, CountNewlines;
    assert (text + "\"" + rest)[..|text|] == text;
  }

  /** A double-quoted value is the text up to the first quote that an even run of backslashes precedes, with every
      escape in it read, line breaks included. */
  lemma DoubleQuotedReads(lines: seq<string>, i: nat, body: string, text: string, rest: string)
    requires i < |lines| && Left(lines, i, body) == text + "\"" + rest
    requires BackslashRun(text, |text|) % 2 == 0 && forall j :: 0 <= j < |text| ==> !Closes(text, '"', j)
    ensures ValueAt(lines, i, "\"" + body) == (UnescapeValue(text), i + CountNewlines(text))
  {
    hide UnescapeValue, QuotedText, Left, BackslashRun, CountNewlines, CloseFrom, Closes;
    QuoteCloses(text, rest);
    QuotedTextReads(lines, i, body, text, rest);
    var s := "\"" + body;
    assert s[1..] == body && s[0] == '"';
  }

  predicate Plain(s: string) {
    forall c :: c in s ==> c !in "\\\"\n"
  }

  lemma EscapeInQuotes(lines: seq<string>, i: nat, a: string, c: char, b: string, rest: string)
    requires i < |lines| && Plain(a) && Plain(b) && Escapes(c)
    ensures ValueAt(lines, i, "\"" + (a + ['\\', c] + b + "\"" + rest))
         == (UnescapeValue(a + ['\\', c] + b), i)
  {
    hide UnescapeValue;
    var text := a + ['\\', c] + b;
    var body := text + "\"" + rest;
    LeftUnfolds(lines, i, body);
    var left := Left(lines, i, body);
    assert left == text + "\"" + left[|text| + 1..];
    forall j | 0 <= j < |text| ensures !Closes(text, '"', j) && text[j] != '\n' {
      if j < |a| {
        assert text[j] == a[j] && a[j] in a;
      } else if j > |a| + 1 {
        assert text[j] == b[j - |a| - 2] && b[j - |a| - 2] in b;
      } else if j == |a| + 1 {
        assert |a| > 0 ==> text[|a| - 1] == a[|a| - 1] && a[|a| - 1] in a;
        assert BackslashRun(text, |a|) == 0 && BackslashRun(text, |a| + 1) == 1;
      }
    }
    assert text[|text| - 1] == if b == "" then c else b[|b| - 1];
    assert b != "" ==> b[|b| - 1] in b;
    CountNone(text);
    hide ValueAt, Left;
    DoubleQuotedReads(lines, i, body, text, left[|text| + 1..]);
  }

  /** So an escape written by hand in double quotes is the character it stands for. */
  lemma HandWrittenEscapes(lines: seq<string>, i: nat, a: string, b: string, rest: string)
    requires i < |lines| && Plain(a) && Plain(b)
    ensures ValueAt(lines, i, "\"" + (a + "\\n" + b + "\"" + rest)) == (a + "\n" + b, i)
    ensures ValueAt(lines, i, "\"" + (a + "\\r" + b + "\"" + rest)) == (a + "\r" + b, i)
    ensures ValueAt(lines, i, "\"" + (a + "\\t" + b + "\"" + rest)) == (a + "\t" + b, i)
    ensures ValueAt(lines, i, "\"" + (a + "\\\"" + b + "\"" + rest)) == (a + "\"" + b, i)
  {
    hide ValueAt, UnescapeValue;
    assert a != "" ==> a[|a| - 1] in a;
    EscapeInQuotes(lines, i, a, 'n', b, rest);
    EscapeInQuotes(lines, i, a, 'r', b, rest);
    EscapeInQuotes(lines, i, a, 't', b, rest);
    EscapeInQuotes(lines, i, a, '"', b, rest);
    EscapeStandsFor(a, b);
    NoBackslashStays(a);
    NoBackslashStays(b);
  }
}
