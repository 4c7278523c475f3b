/** The comment header of a pulled file: which project and environment names keep it free of declarations. */
module EnvHeader {
  import opened Text
  import opened EnvEscape
  import opened EnvParser
  import opened EnvFile

  /** The lines of a name after its first, which shares its line with the tag. */
  function LaterLines(name: string): seq<string> {
    Lines(name)[1..]
  }

  predicate OneLine(s: string) {
    forall c :: c in s ==> c != '\n' && c != '\r'
  }

  // ---- Lines of a text in pieces ----

  lemma SilentParts(a: seq<string>, b: seq<string>)
    ensures Silent(a + b) <==> Silent(a) && Silent(b)
  {
    hide Declaration;
    var both := a + b;
    assert forall i :: 0 <= i < |a| ==> both[i] == a[i];
    assert forall i :: 0 <= i < |b| ==> both[|a| + i] == b[i];
    if Silent(a) && Silent(b) {
      forall i | 0 <= i < |both| ensures Declaration(both[i]).None? {
        assert i >= |a| ==> both[i] == b[i - |a|];
      }
    }
  }

  lemma SilentLine(line: string, rest: seq<string>)
    requires Declaration(line).None?
    ensures Silent([line] + rest) <==> Silent(rest)
  {
    hide Declaration;
    SilentParts([line], rest);
  }

  /** A text of one line in front joins the first line. */
  lemma LinesBehind(tag: string, name: string)
    requires OneLine(tag)
    ensures Lines(tag + name) == [tag + Lines(name)[0]] + LaterLines(name)
  {
    assert tag != "" ==> tag[|tag| - 1] in tag;
    NormalizeConcat(tag, name);
    NormalizeLF(tag);
    SplitBehind(tag, NormalizeNewlines(name));
  }

  /** A line feed ends a line; with a carriage return before it, it ends the same line. */
  lemma LinesAround(a: string, b: string)
    ensures if a != "" && a[|a| - 1] == '\r' then Lines(a) + Lines(b) == Lines(a[..|a| - 1]) + [""] + Lines(b)
                                                && Lines(a + "\n" + b) == Lines(a[..|a| - 1]) + Lines(b)
            else Lines(a + "\n" + b) == Lines(a) + Lines(b)
  {
    if a != "" && a[|a| - 1] == '\r' {
      LinesAtCR(a[..|a| - 1], b);
      assert a == a[..|a| - 1] + "\r";
    } else {
      NormalizeConcat(a, "\n" + b);
      JoinAtLF(a, b, NormalizeNewlines(a), NormalizeNewlines(b));
    }
  }

  lemma JoinAtLF(a: string, b: string, x: string, y: string)
    requires NormalizeNewlines(a) == x && NormalizeNewlines(b) == y
    requires NormalizeNewlines(a + ("\n" + b)) == x + ("\n" + y)
    ensures Lines(a + "\n" + b) == Lines(a) + Lines(b)
  {
    hide NormalizeNewlines, SplitLines;
    assert a + ("\n" + b) == a + "\n" + b && x + ("\n" + y) == x + "\n" + y;
    SplitConcat(x, y);
  }

  lemma LinesAtCR(a: string, b: string)
    ensures Lines(a + "\r") == Lines(a) + [""]
    ensures Lines(a + "\r" + "\n" + b) == Lines(a) + Lines(b)
  {
    NormalizeConcat(a, "\r");
    NormalizeCR();
    NormalizeConcat(a, "\r\n" + b);
    hide NormalizeNewlines;
    var x, y := NormalizeNewlines(a), NormalizeNewlines(b);
    assert a + "\r" + "\n" + b == a + ("\r\n" + b);
    assert x + ("\n" + y) == x + "\n" + y && x + "\n" + "" == x + "\n";
    SplitConcat(x, y);
    SplitConcat(x, "");
  }

  lemma SilentAround(a: string, b: string)
    ensures Silent(Lines(a + "\n" + b)) <==> Silent(Lines(a)) && Silent(Lines(b))
  {
    LinesAround(a, b);
    EmptyLineIsSilent();
    hide Declaration, Lines, Silent;
    SilentParts(Lines(a), Lines(b));
    if a != "" && a[|a| - 1] == '\r' {
      var init := Lines(a[..|a| - 1]);
      SilentParts(init, Lines(b));
      SilentLine("", Lines(b));
      SilentParts(init, [""] + Lines(b));
      assert init + [""] + Lines(b) == init + ([""] + Lines(b));
    }
  }

  lemma {:induction false} TrimEndKeepsFirst(s: string)
    requires s != "" && !IsSpace(s[0])
    ensures TrimEnd(s) != "" && TrimEnd(s)[0] == s[0]
  {
    if !IsSpace(s[|s| - 1]) {
    } else {
      TrimEndKeepsFirst(s[..|s| - 1]);
    }
  }

  lemma CommentIsSilent(line: string)
    requires line != "" && line[0] == '#'
    ensures Declaration(line).None?
  {
    TrimEndKeepsFirst(line);
  }

  /** A comment tag with a name behind it declares what the name's later lines declare. */
  lemma LabelledName(tag: string, name: string)
    requires OneLine(tag) && tag != "" && tag[0] == '#'
    ensures Silent(Lines(tag + name)) <==> Silent(LaterLines(name))
  {
    LinesBehind(tag, name);
    CommentIsSilent(tag + Lines(name)[0]);
    hide Declaration, Lines, Silent;
    SilentLine(tag + Lines(name)[0], LaterLines(name));
  }

  // ---- The header ----

  lemma OneLineConcat(a: string, b: string)
    requires OneLine(a) && OneLine(b)
    ensures OneLine(a + b)
  {
  }

  lemma WarningIsOneLine()
    ensures OneLine(WARNING) && WARNING != "" && WARNING[0] == '#'
  {
    OneLineConcat("# WARNING: This file contains", " sensitive data. Do NOT");
    OneLineConcat("# WARNING: This file contains" + " sensitive data. Do NOT", " commit to version control.");
  }

  lemma LabelsAreComments()
    ensures OneLine("# SuperLock-managed environment file") && OneLine(WARNING) && WARNING != "" && WARNING[0] == '#'
    ensures OneLine("# Project: ") && OneLine("# Environment: ") && OneLine("# Generated: ")
  {
    WarningIsOneLine();
  }

  lemma HeaderInPieces(project: string, env: string, generated: string)
    ensures Header(project, env, generated)
         == "# SuperLock-managed environment file" + "\n" +
            ("# Project: " + project + "\n" +
             ("# Environment: " + env + "\n" + ("# Generated: " + generated + "\n" + (WARNING + "\n" + ""))))
  {
    var parts := HeaderParts(project, env, generated);
    assert parts[1..][1..] == parts[2..] && parts[2..][1..] == parts[3..] && parts[3..][1..] == parts[4..];
    assert parts[4..][1..] == parts[5..] == [""];
    assert JoinLines(parts[4..]) == parts[4] + "\n" + JoinLines(parts[5..]);
    assert JoinLines(parts[3..]) == parts[3] + "\n" + JoinLines(parts[4..]);
    assert JoinLines(parts[2..]) == parts[2] + "\n" + JoinLines(parts[3..]);
    assert JoinLines(parts[1..]) == parts[1] + "\n" + JoinLines(parts[2..]);
  }

  lemma CommentLineIsSilent(line: string)
    requires OneLine(line) && line != "" && line[0] == '#'
    ensures Silent(Lines(line))
  {
    LabelledName(line, "");
    assert line + "" == line;
    assert Lines("") == [""];
  }

  /** The header is silent exactly when no line of the project name, of the environment name or of the time
      after its first is a declaration. */
  lemma HeaderIsSilentIff(project: string, env: string, generated: string)
    ensures Silent(Lines(Header(project, env, generated)))
       <==> Silent(LaterLines(project)) && Silent(LaterLines(env)) && Silent(LaterLines(generated))
  {
    HeaderInPieces(project, env, generated);
    LabelsAreComments();
    CommentLineIsSilent("# SuperLock-managed environment file");
    CommentLineIsSilent(WARNING);
    assert Silent(Lines("")) by {
      EmptyLineIsSilent();
    }
    hide *;
    var r4 := WARNING + "\n" + "";
    var r3 := "# Generated: " + generated + "\n" + r4;
    var r2 := "# Environment: " + env + "\n" + r3;
    var r1 := "# Project: " + project + "\n" + r2;
    SilentAround(WARNING, "");
    LabelledName("# Generated: ", generated);
    SilentAround("# Generated: " + generated, r4);
    LabelledName("# Environment: ", env);
    SilentAround("# Environment: " + env, r3);
    LabelledName("# Project: ", project);
    SilentAround("# Project: " + project, r2);
    SilentAround("# SuperLock-managed environment file", r1);
  }

  lemma {:induction false} OneLineHasNoMore(name: string)
    requires OneLine(name)
    ensures Lines(name) == [name] && LaterLines(name) == []
  {
    LinesBehind(name, "");
    assert name + "" == name && Lines("") == [""];
  }

  /** Names without line breaks keep the header silent. */
  lemma OneLineNamesAreSilent(project: string, env: string, generated: string)
    requires OneLine(project) && OneLine(env) && OneLine(generated)
    ensures Silent(Lines(Header(project, env, generated)))
  {
    OneLineHasNoMore(project);
    OneLineHasNoMore(env);
    OneLineHasNoMore(generated);
    hide Declaration, Header, LaterLines;
    HeaderIsSilentIff(project, env, generated);
  }

  /** All storable entry lists survive a pull exactly when no later line of a name is a declaration. */
  lemma NamesThatRoundTrip(project: string, env: string, generated: string)
    ensures (forall es | Storable(es) :: ParseEnv(PullFile(project, env, generated, es)) == es)
       <==> Silent(LaterLines(project)) && Silent(LaterLines(env)) && Silent(LaterLines(generated))
  {
    hide Declaration, Header, LaterLines, ParseEnv, PullFile, Storable, Lines, Silent;
    HeaderIsSilentIff(project, env, generated);
    HeaderCondition(project, env, generated);
  }

  // ---- A name that adds an entry ----

  /** The written lines when the project name is a line and, on the next line, an entry. */
  function LinesWithEntry(name: string, e: Entry, env: string, generated: string): seq<string> {
    ["# SuperLock-managed environment file", "# Project: " + name, EntryLine(e), "# Environment: " + env,
     "# Generated: " + generated, WARNING, ""]
  }

  lemma HeaderLinesWithEntry(name: string, e: Entry, env: string, generated: string)
    requires OneLine(name) && OneLine(env) && OneLine(generated) && ValidKey(e.key)
    ensures Lines(Header(name + "\n" + EntryLine(e), env, generated)) == LinesWithEntry(name, e, env, generated)
  {
    hide *;
    var l1, l2, l3, l4 := "# Project: " + name, EntryLine(e), "# Environment: " + env, "# Generated: " + generated;
    var r4 := WARNING + "\n" + "";
    var r3 := l4 + "\n" + r4;
    var r2 := l3 + "\n" + r3;
    HeaderInPieces(name + "\n" + l2, env, generated);
    LabelsAreComments();
    OneLineConcat("# Project: ", name);
    OneLineConcat("# Environment: ", env);
    OneLineConcat("# Generated: ", generated);
    EntryPieces(name, e, env, generated);
    assert "# Project: " + (name + "\n" + l2) + "\n" + r2 == l1 + "\n" + (l2 + "\n" + r2);
    OneLineThen(WARNING, "");
    OneLineThen(l4, r4);
    OneLineThen(l3, r3);
    OneLineThen(l2, r2);
    OneLineThen(l1, l2 + "\n" + r2);
    OneLineThen("# SuperLock-managed environment file", l1 + "\n" + (l2 + "\n" + r2));
  }

  lemma EntryPieces(name: string, e: Entry, env: string, generated: string)
    requires ValidKey(e.key)
    ensures OneLine(EntryLine(e)) && Lines("") == [""]
    ensures LinesWithEntry(name, e, env, generated)
         == ["# SuperLock-managed environment file"] +
            (["# Project: " + name] + ([EntryLine(e)] +
             (["# Environment: " + env] + (["# Generated: " + generated] + ([WARNING] + [""])))))
  {
    hide Declaration, EntryLine, ValidKey, SerializeEnvValue, Lines;
    WrittenLineDeclares(e);
    EmptyLineIsSilent();
  }

  lemma OneLineThen(a: string, b: string)
    requires OneLine(a)
    ensures Lines(a + "\n" + b) == [a] + Lines(b)
  {
    OneLineHasNoMore(a);
    LinesAround(a, b);
    assert a != "" ==> a[|a| - 1] in a;
  }

  /** An entry on a later line of the project name is read back before the stored ones. */
  lemma NameAddsEntry(name: string, e: Entry, env: string, generated: string, es: seq<Entry>)
    requires OneLine(name) && OneLine(env) && OneLine(generated) && ValidKey(e.key) && ValidKeys(es)
    ensures Declarations(Lines(PullFile(name + "\n" + EntryLine(e), env, generated, es)), 0) == Folded([e] + es)
  {
    var header := LinesWithEntry(name, e, env, generated);
    var lines := FileLines(header, es);
    CommentsAroundEntry(name, e, env, generated);
    hide *;
    PulledLines(name + "\n" + EntryLine(e), env, generated, es);
    HeaderLinesWithEntry(name, e, env, generated);
    WrittenLineDeclares(e);
    FileWithEntryRead(header, e, es);
  }

  lemma CommentsAroundEntry(name: string, e: Entry, env: string, generated: string)
    ensures var l := LinesWithEntry(name, e, env, generated);
            |l| == 7 && l[2] == EntryLine(e) && l[6] == ""
            && forall i :: 0 <= i < 6 && i != 2 ==> Declaration(l[i]).None?
  {
    WarningIsOneLine();
    hide Declaration, EntryLine, OneLine;
    CommentIsSilent("# SuperLock-managed environment file");
    CommentIsSilent("# Project: " + name);
    CommentIsSilent("# Environment: " + env);
    CommentIsSilent("# Generated: " + generated);
    CommentIsSilent(WARNING);
  }

  lemma FoldedOneMore(e: Entry, es: seq<Entry>)
    ensures Folded([e] + es) == [Entry(e.key, FoldControls(e.value))] + Folded(es)
  {
  }

  lemma DeclaredHere(lines: seq<string>, i: nat, e: Entry)
    requires i < |lines| && Declaration(lines[i]) == Some(Entry(e.key, SerializeEnvValue(e.value)))
    ensures Declarations(lines, i) == [Entry(e.key, FoldControls(e.value))] + Declarations(lines, i + 1)
  {
    hide Declaration, ValueAt, SerializeEnvValue, FoldControls;
    WrittenValueReads(lines, i, e.value);
  }

  lemma FileWithEntryRead(header: seq<string>, e: Entry, es: seq<Entry>)
    requires |header| == 7 && header[2] == EntryLine(e)
    requires forall i :: 0 <= i < 6 && i != 2 ==> Declaration(header[i]).None?
    requires Declaration(header[2]) == Some(Entry(e.key, SerializeEnvValue(e.value))) && ValidKeys(es)
    ensures Declarations(FileLines(header, es), 0) == Folded([e] + es)
  {
    EmptyLineIsSilent();
    hide Declaration, Declarations, EntryLine, Folded, SerializeEnvValue, FoldControls, ValidKey;
    var lines := FileLines(header, es);
    assert forall i :: 0 <= i < 6 ==> lines[i] == header[i];
    SilentLinesSkipped(lines, 0, 2);
    DeclaredHere(lines, 2, e);
    SilentLinesSkipped(lines, 3, 6);
    BodyRead(lines, es);
    FoldedOneMore(e, es);
  }

  lemma BodyRead(lines: seq<string>, es: seq<Entry>)
    requires |lines| >= 6 && ValidKeys(es) && Declaration("").None?
    requires lines[6..] == (if es == [] then [""] else EntryLines(es)) + [""]
    ensures Declarations(lines, 6) == Folded(es)
  {
    hide Declaration, Declarations, EntryLine, Folded, ValidKey;
    var rest := lines[6..];
    assert forall i :: 6 <= i < |lines| ==> lines[i] == rest[i - 6];
    EntryLinesRead(lines, 6, es);
  }

  /** The shortest such name: an entry nobody stored comes back. */
  lemma BrokenNameAddsEntry()
    ensures ParseEnv(PullFile("x\nA=1", "dev", "now", [])) == [Entry("A", "1")]
  {
    var e := Entry("A", "1");
    assert EntryLine(e) == "A=1" by {
      assert !NeedsQuotes("1");
    }
    assert "x" + "\n" + "A=1" == "x\nA=1";
    NameAddsEntry("x", e, "dev", "now", []);
    assert FoldControls("1") == "1";
    assert Folded([e]) == [e] && [e] + [] == [e];
    DistinctUnchanged([e]);
  }
}
