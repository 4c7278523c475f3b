/** Quoted values in whole files: over however many lines, closed or not, whatever their lines look like. */
module EnvQuoted {
  import opened Text
  import opened EnvEscape
  import opened EnvParser
  import opened EnvLine

  lemma {:induction false} SplitCounts(s: string)
    ensures |SplitLines(s)| == CountNewlines(s) + 1
  {
    if s == "" {
    } else {
      SplitCounts(s[1..]);
    }
  }

  lemma {:induction false} JoinSplit(s: string)
    ensures JoinLines(SplitLines(s)) == s
  {
    if s == "" {
    } else {
      var t := SplitLines(s[1..]);
      JoinSplit(s[1..]);
      assert s == [s[0]] + s[1..];
      if s[0] == '\n' {
        assert SplitLines(s)[1..] == t;
      } else {
        assert SplitLines(s)[1..] == t[1..];
      }
    }
  }

  /** key="first line of the text: a declaration whose rest is the quote and that line. */
  lemma KeyThenQuote(key: string, quote: char, body: string)
    requires ValidKey(key) && quote in {'"', '\''} && (body == "" || !IsSpace(body[|body| - 1]))
    ensures Declaration(key + "=" + [quote] + body) == Some(Entry(key, [quote] + body))
  {
    hide Declaration, Trim, IsSpace;
    var value := [quote] + body;
    var l := Layout("", false, "", "", value);
    assert value[|value| - 1] == if body == "" then quote else body[|body| - 1];
    NotSpace(quote);
    TrimPadded("", value, "");
    assert "" + value + "" == value;
    assert key + "=" + [quote] + body == LayOut(l, key);
    LayoutDeclares(key + "=" + [quote] + body, l, key, value);
  }

  lemma NotSpace(quote: char)
    requires quote in {'"', '\''}
    ensures !IsSpace(quote)
  {
  }

  lemma {:induction false} NoRun(s: string, i: nat)
    requires '\\' !in s && i <= |s|
    ensures BackslashRun(s, i) == 0
  {
    if i > 0 {
      assert s[i - 1] in s;
    }
  }

  lemma ClosesAtTheQuote(text: string, quote: char)
    requires quote in {'"', '\''} && quote !in text && (quote == '"' ==> '\\' !in text)
    ensures CloseFrom(text + [quote], quote, 0) == |text|
  {
    hide CloseFrom;
    assert text + [quote] == text + [quote] + "";
    if quote == '"' {
      NoRun(text, |text|);
      forall j | 0 <= j < |text| ensures !Closes(text, '"', j) {
        assert text[j] in text;
      }
      QuoteCloses(text, "");
    } else {
      assert (text + [quote])[0..|text|] == text;
      SingleCloses(text + [quote], 0, |text|);
    }
  }

  /** The lines of a file that is one quoted declaration. */
  lemma QuotedLines(key: string, quote: char, text: string) returns (lines: seq<string>, body: string)
    requires ValidKey(key) && quote in {'"', '\''} && '\r' !in text
    ensures lines == Lines(key + "=" + [quote] + text + [quote]) && |lines| == CountNewlines(text) + 1
    ensures body == SplitLines(text + [quote])[0] && lines[0] == key + "=" + [quote] + body
    ensures Left(lines, 0, body) == text + [quote]
  {
    hide ValidKey, Left, SplitLines, NormalizeNewlines;
    var head, tail := key + "=" + [quote], text + [quote];
    var content := head + text + [quote];
    KeyHasNoBreak(key);
    assert content == head + tail;
    NormalizeLF(content);
    SplitBehind(head, tail);
    SplitCounts(tail);
    CountConcat(text, [quote]);
    CountNone([quote]);
    lines := Lines(content);
    body := SplitLines(tail)[0];
    JoinSplit(tail);
    LeftOf(lines, body, SplitLines(tail));
  }

  lemma KeyHasNoBreak(key: string)
    requires ValidKey(key)
    ensures '\n' !in key && '\r' !in key
  {
  }

  lemma LeftOf(lines: seq<string>, body: string, parts: seq<string>)
    requires lines != [] && parts != [] && lines[1..] == parts[1..] && body == parts[0]
    ensures Left(lines, 0, body) == JoinLines(parts)
  {
    assert [body] + lines[1..] == parts;
  }

  lemma {:induction false} FirstPart(text: string, quote: char)
    requires quote != '\n'
    ensures var first := SplitLines(text)[0];
            SplitLines(text + [quote])[0] == if '\n' in text then first else text + [quote]
  {
    if text == "" {
      assert text + [quote] == [quote] && [quote][1..] == "";
    } else {
      assert (text + [quote])[1..] == text[1..] + [quote];
      FirstPart(text[1..], quote);
      assert text == [text[0]] + text[1..];
    }
  }

  /** A file that is one quoted declaration holds just it: the text between the quotes, over all its lines, even if
      they look like declarations or comments. Only the first line loses the space at its end. */
  lemma QuotedFileReads(key: string, quote: char, text: string)
    requires ValidKey(key) && quote in {'"', '\''} && quote !in text && '\r' !in text
    requires quote == '"' ==> '\\' !in text
    requires var first := SplitLines(text)[0]; '\n' in text && first != "" ==> !IsSpace(first[|first| - 1])
    ensures ParseEnv(key + "=" + [quote] + text + [quote]) == [Entry(key, text)]
  {
    hide ValidKey, Declaration, ValueAt, SplitLines, IsSpace, CloseFrom, Left, Collapse, Lines;
    var lines, body := QuotedLines(key, quote, text);
    FirstPart(text, quote);
    NotSpace(quote);
    KeyThenQuote(key, quote, body);
    ClosesAtTheQuote(text, quote);
    QuotedReads(lines, body, text, quote);
    OneDeclaration(lines, Entry(key, [quote] + body), (text, |lines| - 1));
    OneEntry(Entry(key, text));
  }

  lemma QuotedReads(lines: seq<string>, body: string, text: string, quote: char)
    requires lines != [] && Left(lines, 0, body) == text + [quote] && quote in {'"', '\''}
    requires CloseFrom(Left(lines, 0, body), quote, 0) == |text| && (quote == '"' ==> '\\' !in text)
    ensures ValueAt(lines, 0, [quote] + body) == (text, CountNewlines(text))
  {
    hide CloseFrom, Left, CountNewlines, UnescapeValue;
    var rest := [quote] + body;
    assert rest[0] == quote && rest[1..] == body && (text + [quote])[..|text|] == text;
    if quote == '"' {
      NoBackslashStays(text);
    }
  }

  /** What is left open takes the rest of the file. */
  lemma UnclosedTakesTheRest(lines: seq<string>, i: nat, body: string, quote: char)
    requires i < |lines| && quote in {'"', '\''} && forall j :: 0 <= j < |Left(lines, i, body)| ==>
                                                          !Closes(Left(lines, i, body), quote, j)
    ensures ValueAt(lines, i, [quote] + body)
         == (if quote == '"' then UnescapeValue(Left(lines, i, body)) else Left(lines, i, body), |lines|)
  {
    hide CloseFrom, Left, Closes, BackslashRun, UnescapeValue;
    var left, rest := Left(lines, i, body), [quote] + body;
    RunAtStart(left);
    CloseIsFirstClosing(left, quote, 0);
    assert rest[0] == quote && rest[1..] == body;
  }

  lemma OneDeclaration(lines: seq<string>, d: Entry, v: (string, nat))
    requires lines != [] && Declaration(lines[0]) == Some(d) && ValueAt(lines, 0, d.value) == v
    requires v.1 >= |lines| - 1
    ensures Declarations(lines, 0) == [Entry(d.key, v.0)]
  {
    hide Declaration, ValueAt;
  }

  lemma OneEntry(e: Entry)
    ensures Collapse([e]) == [e]
  {
    assert [e][..0] == [];
    CollapseOneMore([], e);
    assert [] + [e] == [e];
  }
}
