/** The file that `superlock link` writes on a pull, and what reading it back gives. */
module EnvFile {
  import opened Text
  import opened EnvEscape
  import opened EnvLine
  import opened EnvParser

  // ---- What every parse result looks like ----

  predicate ValidKeys(es: seq<Entry>) {
    forall i :: 0 <= i < |es| ==> ValidKey(es[i].key)
  }

  lemma DeclaredKeyIsValid(line: string)
    ensures Declaration(line).Some? ==> ValidKey(Declaration(line).value.key)
  {
    hide Trim, ValidKey;
  }

  lemma {:induction false} DeclarationsHaveValidKeys(lines: seq<string>, i: nat)
    ensures ValidKeys(Declarations(lines, i))
    decreases |lines| - i
  {
    hide Declaration, ValueAt, ValidKey;
    if i >= |lines| {
    } else {
      DeclaredKeyIsValid(lines[i]);
      match Declaration(lines[i])
      case None => DeclarationsHaveValidKeys(lines, i + 1);
      case Some(d) => DeclarationsHaveValidKeys(lines, ValueAt(lines, i, d.value).1 + 1);
    }
  }

  /** The earliest declaration of each of two keys decides which of them comes first in the result. */
  lemma {:induction false} FirstKeysInOrder(raw: seq<Entry>, i: nat, j: nat)
    requires i < j < |raw|
    requires forall k :: 0 <= k < j ==> raw[k].key != raw[j].key
    ensures exists p, q ::
              0 <= p < q < |FirstKeys(raw)| && FirstKeys(raw)[p] == raw[i].key && FirstKeys(raw)[q] == raw[j].key
  {
    var n := |raw| - 1;
    var init := raw[..n];
    if j < n {
      FirstKeysInOrder(init, i, j);
      var keys := FirstKeys(init);
      var p, q :| 0 <= p < q < |keys| && keys[p] == raw[i].key && keys[q] == raw[j].key;
      assert FirstKeys(raw)[p] == raw[i].key && FirstKeys(raw)[q] == raw[j].key;
    } else {
      FirstKeysHave(init);
      assert init[i] == raw[i];
      assert HasKey(init, raw[i].key);
      var p :| 0 <= p < |FirstKeys(init)| && FirstKeys(init)[p] == raw[i].key;
      assert !HasKey(init, raw[n].key);
      assert FirstKeys(raw)[p] == raw[i].key && FirstKeys(raw)[|FirstKeys(init)|] == raw[j].key;
    }
  }

  ghost predicate LastOfItsKey(raw: seq<Entry>, i: nat, e: Entry) {
    i < |raw| && raw[i] == e && forall j :: i < j < |raw| ==> raw[j].key != e.key
  }

  ghost predicate LastWins(raw: seq<Entry>, es: seq<Entry>) {
    forall e :: e in es ==> exists i: nat :: LastOfItsKey(raw, i, e)
  }

  lemma {:induction false} LastDeclaration(raw: seq<Entry>, key: string)
    requires HasKey(raw, key)
    ensures exists i: nat :: LastOfItsKey(raw, i, Entry(key, LastValue(raw, key)))
  {
    var n := |raw| - 1;
    if raw[n].key == key {
      assert LastOfItsKey(raw, n, Entry(key, LastValue(raw, key)));
    } else {
      var h :| 0 <= h < |raw| && raw[h].key == key;
      assert raw[..n][h].key == key;
      LastDeclaration(raw[..n], key);
      var i: nat :| LastOfItsKey(raw[..n], i, Entry(key, LastValue(raw[..n], key)));
      assert LastOfItsKey(raw, i, Entry(key, LastValue(raw, key))) by {
        forall j | i < j < |raw| ensures raw[j].key != key {
          if j < n {
            assert raw[..n][j].key != key;
          }
        }
      }
    }
  }

  /** Collapsing keeps exactly the declared keys, once each, with the last declared value. */
  lemma CollapseShape(raw: seq<Entry>)
    ensures DistinctKeys(Collapse(raw))
    ensures forall d :: d in raw ==> HasKey(Collapse(raw), d.key)
    ensures LastWins(raw, Collapse(raw))
  {
    var es, keys := Collapse(raw), FirstKeys(raw);
    FirstKeysHave(raw);
    forall e | e in es ensures exists i: nat :: LastOfItsKey(raw, i, e) {
      var p :| 0 <= p < |es| && es[p] == e;
      assert keys[p] in keys;
      LastDeclaration(raw, keys[p]);
      assert es[p] == Entry(keys[p], LastValue(raw, keys[p]));
    }
    forall d | d in raw ensures HasKey(es, d.key) {
      assert HasKey(raw, d.key);
      var p :| 0 <= p < |keys| && keys[p] == d.key;
      assert es[p].key == d.key;
    }
  }

  /** On every input: valid, distinct keys; exactly the declared ones; each with its last declared value. */
  lemma ParseResultShape(content: string)
    ensures var raw := Declarations(Lines(content), 0);
            var es := ParseEnv(content);
            && ValidKeys(es) && DistinctKeys(es)
            && (forall d :: d in raw ==> HasKey(es, d.key))
            && LastWins(raw, es)
  {
    hide Declarations, Lines, ValidKey, Collapse;
    var raw, es := Declarations(Lines(content), 0), ParseEnv(content);
    CollapseShape(raw);
    DeclarationsHaveValidKeys(Lines(content), 0);
    forall p | 0 <= p < |es| ensures ValidKey(es[p].key) {
      assert es[p] in es;
      var i: nat :| LastOfItsKey(raw, i, es[p]);
      assert ValidKey(raw[i].key);
    }
  }

  lemma {:induction false} DistinctUnchanged(raw: seq<Entry>)
    requires DistinctKeys(raw)
    ensures Collapse(raw) == raw
  {
    if raw == [] {
      assert Collapse(raw) == [];
    } else {
      var n := |raw| - 1;
      DistinctUnchanged(raw[..n]);
      CollapseOneMore(raw[..n], raw[n]);
      assert raw == raw[..n] + [raw[n]];
      assert !HasKey(raw[..n], raw[n].key);
    }
  }

  // ---- Line endings ----

  lemma {:induction false} NormalizeConverted(s: string)
    requires '\r' !in s
    ensures NormalizeNewlines(ReplaceAll(s, "\n", "\r\n")) == s
    ensures NormalizeNewlines(ReplaceAll(s, "\n", "\r")) == s
  {
    if s == "" {
    } else {
      assert s[0] in s && s[..1] == [s[0]];
      var t := s[1..];
      NormalizeConverted(t);
      var crlf, cr := ReplaceAll(t, "\n", "\r\n"), ReplaceAll(t, "\n", "\r");
      if s[0] == '\n' {
        assert ("\r\n" + crlf)[2..] == crlf;
        assert ("\r" + cr)[1..] == cr;
        assert cr == "" || cr[0] != '\n' by { NoLeadingLF(t); }
      } else {
        assert ([s[0]] + crlf)[1..] == crlf && ([s[0]] + cr)[1..] == cr;
      }
      assert s == [s[0]] + t;
    }
  }

  lemma NoLeadingLF(t: string)
    ensures var cr := ReplaceAll(t, "\n", "\r"); cr == "" || cr[0] != '\n'
  {
    if t != "" {
      assert t[..1] == [t[0]];
    }
  }

  /** A file means the same with LF, CRLF or CR line endings. */
  lemma LineEndingsAgree(content: string)
    requires '\r' !in content
    ensures ParseEnv(ReplaceAll(content, "\n", "\r\n")) == ParseEnv(content)
    ensures ParseEnv(ReplaceAll(content, "\n", "\r")) == ParseEnv(content)
  {
    NormalizeLF(content);
    NormalizeConverted(content);
  }

  lemma NormalizeCR()
    ensures NormalizeNewlines("\r") == "\n"
  {
  }

  /** Unless a CRLF is cut in two, the parts of a text have line endings of their own. */
  lemma {:induction false} NormalizeConcat(a: string, b: string)
    requires a == "" || a[|a| - 1] != '\r' || b == "" || b[0] != '\n'
    ensures NormalizeNewlines(a + b) == NormalizeNewlines(a) + NormalizeNewlines(b)
  {
    if a == "" {
      assert a + b == b;
    } else if a[0] != '\r' {
      assert (a + b)[1..] == a[1..] + b;
      NormalizeConcat(a[1..], b);
    } else if |a| >= 2 && a[1] == '\n' {
      assert (a + b)[2..] == a[2..] + b;
      NormalizeConcat(a[2..], b);
    } else {
      assert (a + b)[1..] == a[1..] + b;
      NormalizeConcat(a[1..], b);
    }
  }

  // ---- The written file ----

  // In parts, each short enough for the verifier to look through.
  const WARNING: string := "# WARNING: This file contains" + " sensitive data. Do NOT" + " commit to version control."

  function HeaderParts(project: string, env: string, generated: string): seq<string> {
    ["# SuperLock-managed environment file", "# Project: " + project, "# Environment: " + env,
     "# Generated: " + generated, WARNING, ""]
  }

  function Header(project: string, env: string, generated: string): string {
    JoinLines(HeaderParts(project, env, generated))
  }

  function EntryLine(e: Entry): string {
    e.key + "=" + SerializeEnvValue(e.value)
  }

  function EntryLines(es: seq<Entry>): seq<string> {
    seq(|es|, i requires 0 <= i < |es| => EntryLine(es[i]))
  }

  function PullFile(project: string, env: string, generated: string, es: seq<Entry>): string {
    Header(project, env, generated) + (if es == [] then "" else JoinLines(EntryLines(es))) + "\n"
  }

  // ---- Reading one written line ----

  lemma {:induction false} EscapedCloses(v: string)
    ensures CloseFrom(EscapeChars(v) + "\"", '"', 0) == |EscapeChars(v)|
  {
    if v == "" {
    } else {
      var h, t := EscapeChar(v[0]), EscapeChars(v[1..]);
      EscapedCloses(v[1..]);
      assert EscapeChars(v) + "\"" == h + (t + "\"");
      CloseShift(h, t + "\"", '"', 0);
      var s := h + (t + "\"");
      if |h| == 2 {
        assert s[0] == '\\';
        assert CloseFrom(s, '"', 0) == CloseFrom(s, '"', 2);
      } else {
        assert s[0] == v[0];
        assert CloseFrom(s, '"', 0) == CloseFrom(s, '"', 1);
      }
    }
  }

  lemma {:induction false} NoComment(s: string, i: nat)
    requires '#' !in s
    ensures CommentFrom(s, i) == -1
    decreases |s| - i
  {
    if i + 1 >= |s| {
    } else {
      assert s[i + 1] in s;
      NoComment(s, i + 1);
    }
  }

  lemma WrittenShape(v: string)
    ensures var s := SerializeEnvValue(v);
            if NeedsQuotes(v) then s == "\"" + EscapeChars(v) + "\""
            else s == v && (forall c :: c in v ==> !IsSpace(c) && c !in "#'\"\\")
  {
    EscapeActsPerCharacter(v);
    if !NeedsQuotes(v) {
      forall c | c in v ensures !IsSpace(c) && c !in "#'\"\\" {
        var i :| 0 <= i < |v| && v[i] == c;
      }
    }
  }

  lemma WrittenIsTrimmed(v: string)
    ensures Trim(SerializeEnvValue(v)) == SerializeEnvValue(v)
    ensures forall c :: c in SerializeEnvValue(v) ==> c != '\n' && c != '\r'
  {
    var s := SerializeEnvValue(v);
    WrittenShape(v);
    EscapedHasNoLineBreak(v);
    EscapeActsPerCharacter(v);
    if !NeedsQuotes(v) && v != "" {
      assert v[0] in v && v[|v| - 1] in v;
    }
  }

  lemma KeyThenValue(key: string, s: string)
    requires ValidKey(key) && Trim(s) == s
    ensures Declaration(key + "=" + s) == Some(Entry(key, s))
  {
    var l := Layout("", false, "", "", s);
    hide Trim, ValidKey, Declaration;
    assert key + "" + "=" + s == key + "=" + s && "" + "" + (key + "=" + s) == key + "=" + s;
    LayoutDeclares(key + "=" + s, l, key, s);
  }

  /** A written line declares its key, with the printed value as the text after the equals sign. */
  lemma WrittenLineDeclares(e: Entry)
    requires ValidKey(e.key)
    ensures Declaration(EntryLine(e)) == Some(Entry(e.key, SerializeEnvValue(e.value)))
    ensures forall c :: c in EntryLine(e) ==> c != '\n' && c != '\r'
  {
    hide SerializeEnvValue, Trim, Declaration, ValidKey;
    WrittenIsTrimmed(e.value);
    WrittenKeyIsOneLine(e.key);
    KeyThenValue(e.key, SerializeEnvValue(e.value));
  }

  lemma WrittenKeyIsOneLine(key: string)
    requires ValidKey(key)
    ensures forall c :: c in key ==> c != '\n' && c != '\r'
  {
  }

  lemma QuotedValueReads(lines: seq<string>, i: nat, v: string)
    requires i < |lines|
    ensures ValueAt(lines, i, "\"" + EscapeChars(v) + "\"") == (FoldControls(v), i)
  {
    hide EscapeChars, FoldControls, CloseFrom, Left;
    var s, body := "\"" + EscapeChars(v) + "\"", EscapeChars(v) + "\"";
    assert s == "\"" + body && s[1..] == body;
    EscapedCloses(v);
    LeftScan(lines, i, body, '"');
    LeftUnfolds(lines, i, body);
    var left := Left(lines, i, body);
    assert left[..|EscapeChars(v)|] == EscapeChars(v);
    EscapeActsPerCharacter(v);
    EscapedHasNoLineBreak(v);
    CountNone(EscapeChars(v));
    UnescapeAfterEscape(v);
  }

  lemma PlainValueReads(lines: seq<string>, i: nat, v: string)
    requires i < |lines| && forall c :: c in v ==> !IsSpace(c) && c !in "#'\"\\"
    ensures ValueAt(lines, i, v) == (FoldControls(v), i)
  {
    if v != "" {
      assert v[0] in v;
    }
    assert !StartsQuoted(v);
    NoComment(v, 0);
    WrittenIsTrimmed(v);
    forall j | 0 <= j < |v| ensures FoldControls(v)[j] == v[j] {
      if j > 0 {
        assert v[j - 1] in v;
      }
    }
    assert FoldControls(v) == v;
  }

  /** Reading back a written value never leaves its line and gives the value with its control letters folded. */
  lemma WrittenValueReads(lines: seq<string>, i: nat, v: string)
    requires i < |lines|
    ensures ValueAt(lines, i, SerializeEnvValue(v)) == (FoldControls(v), i)
  {
    WrittenShape(v);
    if NeedsQuotes(v) {
      QuotedValueReads(lines, i, v);
    } else {
      PlainValueReads(lines, i, v);
    }
  }

  // ---- Reading the written file ----

  function Folded(es: seq<Entry>): seq<Entry> {
    seq(|es|, i requires 0 <= i < |es| => Entry(es[i].key, FoldControls(es[i].value)))
  }

  predicate Silent(lines: seq<string>) {
    forall i :: 0 <= i < |lines| ==> Declaration(lines[i]).None?
  }

  lemma {:induction false} SilentLinesSkipped(lines: seq<string>, i: nat, n: nat)
    requires i <= n <= |lines|
    requires forall j :: i <= j < n ==> Declaration(lines[j]).None?
    ensures Declarations(lines, i) == Declarations(lines, n)
    decreases n - i
  {
    hide Declaration, ValueAt;
    if i == n {
    } else {
      SilentLinesSkipped(lines, i + 1, n);
    }
  }

  lemma {:induction false} NothingDeclared(lines: seq<string>, i: nat)
    requires Declarations(lines, i) == []
    ensures forall j :: i <= j < |lines| ==> Declaration(lines[j]).None?
    decreases |lines| - i
  {
    hide Declaration, ValueAt;
    if i >= |lines| {
    } else {
      NothingDeclared(lines, i + 1);
    }
  }

  /** Entry lines from i on, then nothing but silent lines. */
  lemma {:induction false} EntryLinesRead(lines: seq<string>, i: nat, es: seq<Entry>)
    requires ValidKeys(es) && i + |es| <= |lines|
    requires forall j :: 0 <= j < |es| ==> lines[i + j] == EntryLine(es[j])
    requires forall j :: i + |es| <= j < |lines| ==> Declaration(lines[j]).None?
    ensures Declarations(lines, i) == Folded(es)
    decreases |es|
  {
    hide Declaration, ValueAt, EntryLine, FoldControls;
    if es == [] {
      SilentLinesSkipped(lines, i, |lines|);
    } else {
      WrittenLineDeclares(es[0]);
      WrittenValueReads(lines, i, es[0].value);
      assert lines[i + 0] == EntryLine(es[0]);
      forall j | 0 <= j < |es[1..]| ensures lines[i + 1 + j] == EntryLine(es[1..][j]) {
        assert lines[i + (j + 1)] == EntryLine(es[j + 1]);
      }
      EntryLinesRead(lines, i + 1, es[1..]);
      assert Folded(es) == [Entry(es[0].key, FoldControls(es[0].value))] + Folded(es[1..]);
    }
  }

  lemma JoinedEnds(parts: seq<string>, n: nat)
    requires |parts| == n + 2 && parts[n] != "" && parts[n + 1] == ""
    ensures var h, w := JoinLines(parts), parts[n];
            |h| >= 2 && h == h[..|h| - 1] + "\n" && h[|h| - 2] == w[|w| - 1]
  {
    JoinAppend(parts[..n + 1], "");
    assert parts[..n + 1] + [""] == parts;
    var t := JoinLines(parts[..n + 1]);
    if n > 0 {
      JoinAppend(parts[..n], parts[n]);
      assert parts[..n] + [parts[n]] == parts[..n + 1];
    }
    assert t[|t| - 1] == parts[n][|parts[n]| - 1];
    assert JoinLines(parts) == t + "\n";
  }

  lemma HeaderEnds(project: string, env: string, generated: string)
    ensures var h := Header(project, env, generated);
            |h| >= 2 && h == h[..|h| - 1] + "\n" && h[|h| - 2] == '.'
  {
    hide JoinLines;
    JoinedEnds(HeaderParts(project, env, generated), 4);
  }

  /** The comment header as lines: none of its last line's text can merge with what follows. */
  lemma HeaderThen(project: string, env: string, generated: string, rest: string)
    ensures Lines(Header(project, env, generated) + rest)
         == Lines(Header(project, env, generated))[..|Lines(Header(project, env, generated))| - 1] + Lines(rest)
  {
    var h := Header(project, env, generated);
    var n := |h| - 1;
    HeaderEnds(project, env, generated);
    NormalizeConcat(h, rest);
    NormalizeConcat(h[..n], "\n");
    assert NormalizeNewlines("\n") == "\n";
    var nh, nr := NormalizeNewlines(h[..n]), NormalizeNewlines(rest);
    SplitConcat(nh, nr);
    SplitConcat(nh, "");
    assert nh + "\n" + "" == nh + "\n";
  }

  lemma JoinedLinesHaveNoCR(parts: seq<string>)
    requires |parts| >= 1 && forall p :: p in parts ==> '\r' !in p
    ensures '\r' !in JoinLines(parts)
  {
    assert parts[0] in parts;
    if |parts| > 1 {
      JoinedLinesHaveNoCR(parts[1..]);
    }
  }

  lemma BodyLines(es: seq<Entry>)
    requires ValidKeys(es)
    ensures Lines((if es == [] then "" else JoinLines(EntryLines(es))) + "\n")
         == (if es == [] then [""] else EntryLines(es)) + [""]
  {
    hide EntryLine, ValidKey;
    var ls := if es == [] then [""] else EntryLines(es);
    forall l | l in ls ensures '\r' !in l && '\n' !in l {
      if es != [] {
        var i :| 0 <= i < |es| && l == EntryLine(es[i]);
        WrittenLineDeclares(es[i]);
      }
    }
    JoinedLinesHaveNoCR(ls);
    var body := JoinLines(ls);
    NormalizeLF(body + "\n");
    SplitJoined(ls);
    SplitConcat(body, "");
    assert body + "\n" + "" == body + "\n";
  }

  lemma EmptyLineIsSilent()
    ensures Declaration("").None? && Lines("") == [""]
  {
  }

  /** Header lines, entry lines (one empty line if there are none), and the empty text after the last line feed. */
  function FileLines(header: seq<string>, es: seq<Entry>): seq<string>
    requires header != []
  {
    header[..|header| - 1] + (if es == [] then [""] else EntryLines(es)) + [""]
  }

  lemma PulledLines(project: string, env: string, generated: string, es: seq<Entry>)
    requires ValidKeys(es)
    ensures Lines(PullFile(project, env, generated, es)) == FileLines(Lines(Header(project, env, generated)), es)
  {
    hide Header, JoinLines, EntryLine, Lines;
    var rest := (if es == [] then "" else JoinLines(EntryLines(es))) + "\n";
    assert PullFile(project, env, generated, es) == Header(project, env, generated) + rest;
    HeaderThen(project, env, generated, rest);
    BodyLines(es);
  }

  lemma FileLinesRead(header: seq<string>, es: seq<Entry>)
    requires header != [] && Silent(header) && ValidKeys(es)
    ensures Declarations(FileLines(header, es), 0) == Folded(es)
  {
    EmptyLineIsSilent();
    hide Declaration, Declarations, EntryLine, Folded, ValidKey;
    var lines, n := FileLines(header, es), |header| - 1;
    assert forall j :: 0 <= j < n ==> lines[j] == header[j];
    SilentLinesSkipped(lines, 0, n);
    EntryLinesRead(lines, n, es);
  }

  /** What the parser declares on reading a pulled file under a silent header. */
  lemma PulledDeclarations(project: string, env: string, generated: string, es: seq<Entry>)
    requires ValidKeys(es)
    requires Silent(Lines(Header(project, env, generated)))
    ensures Declarations(Lines(PullFile(project, env, generated, es)), 0) == Folded(es)
  {
    hide *;
    PulledLines(project, env, generated, es);
    FileLinesRead(Lines(Header(project, env, generated)), es);
  }

  predicate Storable(es: seq<Entry>) {
    ValidKeys(es) && DistinctKeys(es) && forall i :: 0 <= i < |es| ==> Survives(es[i].value)
  }

  lemma FoldedUnchanged(es: seq<Entry>)
    ensures Folded(es) == es <==> forall i :: 0 <= i < |es| ==> Survives(es[i].value)
    ensures DistinctKeys(es) ==> DistinctKeys(Folded(es))
  {
    forall i | 0 <= i < |es|
      ensures Folded(es)[i] == es[i] <==> Survives(es[i].value)
    {
      RoundTripDomain(es[i].value);
      UnescapeAfterEscape(es[i].value);
    }
    if Folded(es) == es {
      forall i | 0 <= i < |es| ensures Survives(es[i].value) {
        assert Folded(es)[i] == es[i];
      }
    }
  }

  /** Under a silent header, reading a pulled file gives back exactly the storable entry lists. */
  lemma PullRoundTrip(project: string, env: string, generated: string, es: seq<Entry>)
    requires Silent(Lines(Header(project, env, generated)))
    ensures ParseEnv(PullFile(project, env, generated, es)) == es <==> Storable(es)
  {
    hide Declarations, Lines, PullFile, ValidKey, Survives, Collapse, Folded;
    var content := PullFile(project, env, generated, es);
    ParseResultShape(content);
    if ValidKeys(es) && DistinctKeys(es) {
      PulledDeclarations(project, env, generated, es);
      FoldedUnchanged(es);
      DistinctUnchanged(Folded(es));
    }
  }

  /** The header condition is exact: it holds when every storable list survives, and only then. */
  lemma HeaderCondition(project: string, env: string, generated: string)
    ensures (forall es | Storable(es) :: ParseEnv(PullFile(project, env, generated, es)) == es)
       <==> Silent(Lines(Header(project, env, generated)))
  {
    hide Declarations, Declaration, Collapse, Header, Lines;
    if Silent(Lines(Header(project, env, generated))) {
      forall es | Storable(es) ensures ParseEnv(PullFile(project, env, generated, es)) == es {
        PullRoundTrip(project, env, generated, es);
      }
    }
    if forall es | Storable(es) :: ParseEnv(PullFile(project, env, generated, es)) == es {
      assert Storable([]);
      NothingFromHeader(project, env, generated);
    }
  }

  lemma NothingFromHeader(project: string, env: string, generated: string)
    requires ParseEnv(PullFile(project, env, generated, [])) == []
    ensures Silent(Lines(Header(project, env, generated)))
  {
    hide Declarations, Declaration, Collapse, Header, SplitLines, NormalizeNewlines;
    var header := Header(project, env, generated);
    var h, lines := Lines(header), Lines(header + "\n");
    HeaderThen(project, env, generated, "\n");
    HeaderThen(project, env, generated, "");
    BodyLines([]);
    EmptyLineIsSilent();
    assert PullFile(project, env, generated, []) == header + "\n" && header + "" == header;
    CollapseNonEmpty(Declarations(lines, 0));
    NothingDeclared(lines, 0);
    forall i | 0 <= i < |h| ensures Declaration(h[i]).None? {
      if i < |h| - 1 {
        assert lines[i] == h[i];
      }
    }
  }

  lemma CollapseNonEmpty(raw: seq<Entry>)
    requires Collapse(raw) == []
    ensures raw == []
  {
    if raw != [] {
      assert raw[0] in raw;
      CollapseShape(raw);
    }
  }
}
