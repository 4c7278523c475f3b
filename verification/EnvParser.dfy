/** The .env parser of the CLI: its loops, and the line-by-line meaning they compute. */
module EnvParser {
  import opened Text
  import opened EnvEscape

  datatype Entry = Entry(key: string, value: string)

  // ---- Quotes ----

  /** Where a scan from i finds the closing quote, or -1; in double quotes a backslash hides the next character. */
  function CloseFrom(s: string, quote: char, i: nat): int
    decreases |s| - i
  {
    if i >= |s| then -1
    else if s[i] == '\\' && quote == '"' then CloseFrom(s, quote, i + 2)
    else if s[i] == quote then i
    else CloseFrom(s, quote, i + 1)
  }

  /** Number of backslashes directly before position i. */
  function BackslashRun(s: string, i: nat): nat
    requires i <= |s|
  {
    if i == 0 || s[i - 1] != '\\' then 0 else 1 + BackslashRun(s, i - 1)
  }

  /** A quote that closes: any single quote; a double quote after an even run of backslashes. */
  predicate Closes(s: string, quote: char, i: nat)
    requires i < |s|
  {
    s[i] == quote && (quote == '"' ==> BackslashRun(s, i) % 2 == 0)
  }

  ghost predicate FirstClosing(s: string, quote: char, from: nat, r: int) {
    if r == -1 then forall j :: from <= j < |s| ==> !Closes(s, quote, j)
    else from <= r < |s| && Closes(s, quote, r) && forall j :: from <= j < r ==> !Closes(s, quote, j)
  }

  /** Skipping escaped pairs finds the first quote that an even run of backslashes precedes. */
  lemma {:induction false} CloseIsFirstClosing(s: string, quote: char, i: nat)
    requires quote in {'"', '\''}
    requires i <= |s| ==> quote == '"' ==> BackslashRun(s, i) % 2 == 0
    ensures FirstClosing(s, quote, i, CloseFrom(s, quote, i))
    decreases |s| - i
  {
    if i >= |s| {
    } else {
      if s[i] == '\\' && quote == '"' {
        CloseIsFirstClosing(s, quote, i + 2);
        if i + 1 < |s| {
          assert BackslashRun(s, i + 1) == BackslashRun(s, i) + 1;
          assert !Closes(s, quote, i + 1);
        }
      } else if s[i] != quote {
        CloseIsFirstClosing(s, quote, i + 1);
      }
    }
  }

  method FindClosingQuote(text: string, quote: char) returns (r: int)
    ensures r == CloseFrom(text, quote, 0)
  {
    var i := 0;
    while i < |text|
      invariant 0 <= i
      invariant CloseFrom(text, quote, 0) == CloseFrom(text, quote, i)
    {
      if text[i] == '\\' && quote == '"' {
        i := i + 2;
        continue;
      }
      if text[i] == quote {
        return i;
      }
      i := i + 1;
    }
    return -1;
  }

  /** Scanning line by line is scanning the lines joined: an escape at the end of a line hides only the break. */
  lemma {:induction false} CloseAcrossLines(a: string, b: string, quote: char, i: nat)
    requires quote in {'"', '\''}
    requires i <= |a| + 1
    ensures var s := a + "\n" + b;
            CloseFrom(s, quote, i) ==
            if CloseFrom(a, quote, i) != -1 then CloseFrom(a, quote, i)
            else if CloseFrom(b, quote, 0) != -1 then |a| + 1 + CloseFrom(b, quote, 0)
            else -1
    decreases |a| + 1 - i
  {
    var s := a + "\n" + b;
    if i < |a| {
      assert s[i] == a[i];
      if s[i] == '\\' && quote == '"' {
        CloseAcrossLines(a, b, quote, i + 2);
      } else if s[i] != quote {
        CloseAcrossLines(a, b, quote, i + 1);
      }
    } else if i == |a| {
      assert s[i] == '\n';
      CloseAcrossLines(a, b, quote, i + 1);
    } else {
      CloseShift(a + "\n", b, quote, 0);
    }
  }

  lemma {:induction false} CloseShift(a: string, b: string, quote: char, i: nat)
    ensures CloseFrom(a + b, quote, |a| + i) ==
            if CloseFrom(b, quote, i) == -1 then -1 else |a| + CloseFrom(b, quote, i)
    decreases |b| - i
  {
    if i >= |b| {
    } else {
      assert (a + b)[|a| + i] == b[i];
      CloseShift(a, b, quote, i + 2);
      CloseShift(a, b, quote, i + 1);
    }
  }

  lemma {:induction false} CloseInRange(s: string, quote: char, i: nat)
    ensures CloseFrom(s, quote, i) == -1 || i <= CloseFrom(s, quote, i) < |s|
    decreases |s| - i
  {
    if i >= |s| {
    } else {
      CloseInRange(s, quote, i + 1);
      CloseInRange(s, quote, i + 2);
    }
  }

  function CountNewlines(s: string): nat {
    if s == "" then 0 else (if s[0] == '\n' then 1 else 0) + CountNewlines(s[1..])
  }

  lemma {:induction false} CountConcat(a: string, b: string)
    ensures CountNewlines(a + b) == CountNewlines(a) + CountNewlines(b)
  {
    if a == "" {
      assert a + b == b;
    } else {
      assert (a + b)[1..] == a[1..] + b;
      CountConcat(a[1..], b);
    }
  }

  lemma {:induction false} CountNone(s: string)
    requires '\n' !in s
    ensures CountNewlines(s) == 0
  {
    if s == "" {
    } else {
      assert s[0] in s;
      CountNone(s[1..]);
    }
  }

  // ---- Lines ----

  /** CRLF and a lone CR both become LF. */
  function NormalizeNewlines(s: string): string {
    if s == "" then ""
    else if s[0] != '\r' then [s[0]] + NormalizeNewlines(s[1..])
    else if |s| >= 2 && s[1] == '\n' then "\n" + NormalizeNewlines(s[2..])
    else "\n" + NormalizeNewlines(s[1..])
  }

  lemma {:induction false} NormalizeLF(s: string)
    requires '\r' !in s
    ensures NormalizeNewlines(s) == s
  {
    if s == "" {
    } else {
      assert s[0] in s;
      NormalizeLF(s[1..]);
      assert s == [s[0]] + s[1..];
    }
  }

  function Lines(content: string): (r: seq<string>)
    ensures |r| >= 1
  {
    SplitLines(NormalizeNewlines(content))
  }

  predicate KeyStart(c: char) {
    'A' <= c <= 'Z' || 'a' <= c <= 'z' || c == '_'
  }

  predicate KeyChar(c: char) {
    KeyStart(c) || '0' <= c <= '9'
  }

  predicate ValidKey(key: string) {
    key != "" && KeyStart(key[0]) && forall i :: 0 <= i < |key| ==> KeyChar(key[i])
  }

  /** The key and the trimmed text after the equals sign, when the line declares a variable. */
  function Declaration(line: string): Option<Entry> {
    var trimmed := Trim(line);
    if trimmed == "" || trimmed[0] == '#' then None
    else
      var decl := if "export " <= trimmed then Trim(trimmed[7..]) else trimmed;
      var eq := IndexFrom(decl, '=', 0);
      if eq == -1 then None
      else
        var key := Trim(decl[..eq]);
        if !ValidKey(key) then None else Some(Entry(key, Trim(decl[eq + 1..])))
  }

  /** Where an inline comment starts: the first white space with a # after it, at or after i. */
  function CommentFrom(s: string, i: nat): (r: int)
    ensures r == -1 || i <= r < |s|
    decreases |s| - i
  {
    if i + 1 >= |s| then -1
    else if IsSpace(s[i]) && s[i + 1] == '#' then i
    else CommentFrom(s, i + 1)
  }

  function PlainValue(rest: string): string {
    var c := CommentFrom(rest, 0);
    Trim(if c == -1 then rest else rest[..c])
  }

  predicate StartsQuoted(rest: string) {
    rest != "" && rest[0] in {'"', '\''}
  }

  /** Everything that is left when the scan stands in line i, whose unread part is body. */
  function Left(lines: seq<string>, i: nat, body: string): string
    requires i < |lines|
  {
    JoinLines([body] + lines[i + 1..])
  }

  /** The text of a quoted value and the index of the line it ends on: one search of everything that is left. */
  function QuotedText(lines: seq<string>, i: nat, body: string, quote: char): (string, nat)
    requires i < |lines|
  {
    var left := Left(lines, i, body);
    var close := CloseFrom(left, quote, 0);
    CloseInRange(left, quote, 0);
    if close == -1 then (left, |lines|) else (left[..close], i + CountNewlines(left[..close]))
  }

  function Unquote(text: string, quote: char): string {
    if quote == '"' then UnescapeValue(text) else text
  }

  /** Value and last line of the declaration on line i, whose text after the equals sign is rest. */
  function ValueAt(lines: seq<string>, i: nat, rest: string): (r: (string, nat))
    requires i < |lines|
    ensures r.1 >= i
  {
    if StartsQuoted(rest) then
      var t := QuotedText(lines, i, rest[1..], rest[0]);
      (Unquote(t.0, rest[0]), t.1)
    else (PlainValue(rest), i)
  }

  /** Every declaration from line i on, repeated keys included. */
  function Declarations(lines: seq<string>, i: nat): seq<Entry>
    decreases |lines| - i
  {
    if i >= |lines| then []
    else match Declaration(lines[i])
      case None => Declarations(lines, i + 1)
      case Some(d) =>
        var v := ValueAt(lines, i, d.value);
        [Entry(d.key, v.0)] + Declarations(lines, v.1 + 1)
  }

  // ---- Repeated keys ----

  predicate HasKey(es: seq<Entry>, key: string) {
    exists i :: 0 <= i < |es| && es[i].key == key
  }

  predicate DistinctKeys(es: seq<Entry>) {
    forall i, j :: 0 <= i < j < |es| ==> es[i].key != es[j].key
  }

  /** The keys in the order in which they first occur. */
  function FirstKeys(raw: seq<Entry>): seq<string> {
    if raw == [] then []
    else
      var n := |raw| - 1;
      FirstKeys(raw[..n]) + if HasKey(raw[..n], raw[n].key) then [] else [raw[n].key]
  }

  /** The value of the last declaration of key. */
  function LastValue(raw: seq<Entry>, key: string): string
    requires HasKey(raw, key)
  {
    var n := |raw| - 1;
    if raw[n].key == key then raw[n].value else LastValue(raw[..n], key)
  }

  lemma {:induction false} FirstKeysHave(raw: seq<Entry>)
    ensures forall k :: k in FirstKeys(raw) <==> HasKey(raw, k)
    ensures forall i, j :: 0 <= i < j < |FirstKeys(raw)| ==> FirstKeys(raw)[i] != FirstKeys(raw)[j]
  {
    if raw == [] {
    } else {
      var n := |raw| - 1;
      FirstKeysHave(raw[..n]);
      forall k ensures k in FirstKeys(raw) <==> HasKey(raw, k) {
        if HasKey(raw[..n], k) {
          var i :| 0 <= i < n && raw[..n][i].key == k;
          assert raw[i].key == k;
        }
        if HasKey(raw, k) && k != raw[n].key {
          var i :| 0 <= i < |raw| && raw[i].key == k;
          assert raw[..n][i].key == k;
        }
      }
    }
  }

  function Collapse(raw: seq<Entry>): seq<Entry> {
    FirstKeysHave(raw);
    var keys := FirstKeys(raw);
    seq(|keys|, i requires 0 <= i < |keys| =>
      assert keys[i] in keys;
      Entry(keys[i], LastValue(raw, keys[i])))
  }

  /** The meaning of a .env file. */
  function ParseEnv(content: string): seq<Entry> {
    Collapse(Declarations(Lines(content), 0))
  }

  /** One more declaration: its key's entry is overwritten where it stands, or a new entry is appended. */
  lemma CollapseOneMore(raw: seq<Entry>, e: Entry)
    ensures var es := Collapse(raw);
            (!HasKey(es, e.key) ==> Collapse(raw + [e]) == es + [e])
            && forall p :: 0 <= p < |es| && es[p].key == e.key ==> Collapse(raw + [e]) == es[p := e]
  {
    FirstKeysHave(raw);
    FirstKeysHave(raw + [e]);
    var es, more := Collapse(raw), raw + [e];
    assert more[..|raw|] == raw;
    var keys := FirstKeys(raw);
    if HasKey(raw, e.key) {
      assert FirstKeys(more) == keys;
      assert e.key in keys;
      var q :| 0 <= q < |keys| && keys[q] == e.key;
      assert es[q].key == e.key;
      forall p | 0 <= p < |es| && es[p].key == e.key
        ensures Collapse(more) == es[p := e]
      {
        forall j | 0 <= j < |keys| ensures Collapse(more)[j] == es[p := e][j] {
          assert keys[j] in keys;
        }
      }
    } else {
      assert FirstKeys(more) == keys + [e.key];
      forall j | 0 <= j < |keys| ensures Collapse(more)[j] == es[j] {
        assert keys[j] in keys;
        assert keys[j] != e.key;
      }
      forall p | 0 <= p < |es| ensures es[p].key != e.key {
        assert keys[p] in keys;
      }
    }
  }

  // ---- The parser's loops ----

  lemma {:induction false} JoinAppend(parts: seq<string>, last: string)
    requires |parts| >= 1
    ensures JoinLines(parts + [last]) == JoinLines(parts) + "\n" + last
  {
    if |parts| > 1 {
      assert (parts + [last])[1..] == parts[1..] + [last];
      JoinAppend(parts[1..], last);
      assert parts[0] + "\n" + (JoinLines(parts[1..]) + "\n" + last) == JoinLines(parts) + "\n" + last;
    } else {
      assert (parts + [last])[1..] == [last];
    }
  }

  /** What the search of text + here finds, once text is known to hold no closing quote. */
  ghost predicate SameSearch(left: string, text: string, here: string, quote: char) {
    && left == text + here
    && CloseFrom(left, quote, 0) ==
       if CloseFrom(here, quote, 0) == -1 then -1 else |text| + CloseFrom(here, quote, 0)
  }

  lemma SearchNextLine(left: string, text: string, body: string, next: string, quote: char)
    requires quote in {'"', '\''}
    requires SameSearch(left, text, body + "\n" + next, quote)
    requires CloseFrom(body, quote, 0) == -1
    ensures SameSearch(left, text + body + "\n", next, quote)
  {
    CloseAcrossLines(body, next, quote, 0);
    CloseInRange(next, quote, 0);
  }

  lemma TakeThrough(left: string, done: string, body: string, here: string, n: nat)
    requires left == done + here && body <= here && n <= |body|
    ensures |done| + n <= |left| && left[..|done| + n] == done + body[..n]
  {
    assert here[..n] == body[..n];
  }

  lemma CountUpTo(done: string, body: string, n: nat)
    requires n <= |body| && '\n' !in body
    ensures CountNewlines(done + body[..n]) == CountNewlines(done)
  {
    hide CountNewlines;
    CountConcat(done, body[..n]);
    CountNone(body[..n]);
  }

  /** The closing quote is on the current line, at close. */
  lemma SearchEndsHere(left: string, done: string, body: string, here: string, quote: char, close: nat)
    requires SameSearch(left, done, here, quote)
    requires CloseFrom(body, quote, 0) == close && CloseFrom(here, quote, 0) == close
    requires close < |body| && body <= here && '\n' !in body
    ensures CloseFrom(left, quote, 0) == |done| + close
    ensures |done| + close <= |left| && left[..|done| + close] == done + body[..close]
    ensures CountNewlines(done + body[..close]) == CountNewlines(done)
  {
    TakeThrough(left, done, body, here, close);
    CountUpTo(done, body, close);
  }

  lemma CountThroughLine(done: string, body: string)
    requires '\n' !in body
    ensures CountNewlines(done + body + "\n") == CountNewlines(done) + 1
  {
    CountConcat(done, body);
    CountConcat(done + body, "\n");
    CountNone(body);
  }

  lemma LeftUnfolds(lines: seq<string>, i: nat, body: string)
    requires i < |lines|
    ensures if i + 1 == |lines| then Left(lines, i, body) == body
            else Left(lines, i, body) == body + "\n" + Left(lines, i + 1, lines[i + 1])
    ensures body <= Left(lines, i, body)
  {
    if i + 1 < |lines| {
      assert ([body] + lines[i + 1..])[1..] == [lines[i + 1]] + lines[i + 2..];
    } else {
      assert [body] + lines[i + 1..] == [body];
    }
  }

  lemma LeftScan(lines: seq<string>, i: nat, body: string, quote: char)
    requires i < |lines| && quote in {'"', '\''}
    ensures CloseFrom(body, quote, 0) == -1 || 0 <= CloseFrom(body, quote, 0) < |body|
    ensures CloseFrom(body, quote, 0) != -1 ==> CloseFrom(Left(lines, i, body), quote, 0) == CloseFrom(body, quote, 0)
    ensures CloseFrom(body, quote, 0) == -1 && i + 1 == |lines| ==> CloseFrom(Left(lines, i, body), quote, 0) == -1
  {
    LeftUnfolds(lines, i, body);
    CloseInRange(body, quote, 0);
    if i + 1 < |lines| {
      CloseAcrossLines(body, Left(lines, i + 1, lines[i + 1]), quote, 0);
    }
  }

  /** The lines read so far: each one, with its line feed. */
  function Terminated(buffer: seq<string>): string {
    if buffer == [] then "" else JoinLines(buffer) + "\n"
  }

  lemma JoinTerminated(buffer: seq<string>, last: string)
    ensures JoinLines(buffer + [last]) == Terminated(buffer) + last
    ensures Terminated(buffer + [last]) == Terminated(buffer) + last + "\n"
  {
    if buffer == [] {
      assert buffer + [last] == [last];
    } else {
      JoinAppend(buffer, last);
    }
  }

  /** The inner loop: collects whole lines until one of them holds the closing quote. */
  method CollectQuoted(lines: seq<string>, start: nat, rest: string) returns (text: string, i: nat)
    requires start < |lines| && StartsQuoted(rest)
    requires '\n' !in rest && forall l :: l in lines ==> '\n' !in l
    ensures (text, i) == QuotedText(lines, start, rest[1..], rest[0])
  {
    var quote := rest[0];
    var buffer: seq<string> := [];
    var body := rest[1..];
    i := start;
    ghost var left := Left(lines, start, rest[1..]);
    CloseInRange(left, quote, 0);
    assert SameSearch(left, Terminated(buffer), left, quote);
    assert CountNewlines("") == 0;
    hide *;
    while true
      invariant start <= i < |lines| && '\n' !in body
      invariant SameSearch(left, Terminated(buffer), Left(lines, i, body), quote)
      invariant CountNewlines(Terminated(buffer)) == i - start
      decreases |lines| - i
    {
      ghost var done, here := Terminated(buffer), Left(lines, i, body);
      LeftUnfolds(lines, i, body);
      LeftScan(lines, i, body, quote);
      var close := FindClosingQuote(body, quote);
      if close != -1 {
        SearchEndsHere(left, done, body, here, quote, close);
        JoinTerminated(buffer, body[..close]);
        buffer := buffer + [body[..close]];
        break;
      }
      JoinTerminated(buffer, body);
      buffer := buffer + [body];
      i := i + 1;
      if i >= |lines| {
        break;
      }
      SearchNextLine(left, done, body, Left(lines, i, lines[i]), quote);
      CountThroughLine(done, body);
      body := lines[i];
    }
    text := JoinLines(buffer);
  }

  lemma {:induction false} TrimStartKeeps(s: string, c: char)
    requires c !in s
    ensures c !in TrimStart(s)
  {
    if s == "" || !IsSpace(s[0]) {
    } else {
      TrimStartKeeps(s[1..], c);
    }
  }

  lemma {:induction false} TrimEndKeeps(s: string, c: char)
    requires c !in s
    ensures c !in TrimEnd(s)
  {
    if s == "" || !IsSpace(s[|s| - 1]) {
    } else {
      TrimEndKeeps(s[..|s| - 1], c);
    }
  }

  lemma TrimKeeps(s: string, c: char)
    requires c !in s
    ensures c !in Trim(s)
  {
    TrimStartKeeps(s, c);
    TrimEndKeeps(TrimStart(s), c);
  }

  lemma RestHasNoNewline(line: string)
    requires '\n' !in line
    ensures Declaration(line).Some? ==> '\n' !in Declaration(line).value.value
  {
    if Declaration(line).Some? {
      TrimKeeps(line, '\n');
      var trimmed := Trim(line);
      if "export " <= trimmed {
        TrimKeeps(trimmed[7..], '\n');
      }
      var decl := if "export " <= trimmed then Trim(trimmed[7..]) else trimmed;
      var eq := IndexFrom(decl, '=', 0);
      TrimKeeps(decl[eq + 1..], '\n');
    }
  }

  lemma LinesHaveNoNewline(content: string)
    ensures forall l :: l in Lines(content) ==> '\n' !in l
  {
    SplitHasNoNewline(NormalizeNewlines(content));
  }

  lemma QuoteIsThere(rest: string)
    requires StartsQuoted(rest)
    ensures rest != ""
  {
  }

  lemma QuotedValueIs(lines: seq<string>, i: nat, rest: string, value: string, last: nat)
    requires i < |lines| && StartsQuoted(rest)
    requires var t := QuotedText(lines, i, rest[1..], rest[0]);
             last == t.1 && value == if rest[0] == '"' then UnescapeValue(t.0) else t.0
    ensures ValueAt(lines, i, rest) == (value, last)
  {
  }

  lemma PlainValueIs(lines: seq<string>, i: nat, rest: string)
    requires i < |lines| && !StartsQuoted(rest)
    ensures ValueAt(lines, i, rest) == (PlainValue(rest), i)
  {
  }

  /** The index map of the parser points every key at its entry. */
  ghost predicate Indexes(m: map<string, nat>, es: seq<Entry>) {
    && (forall k :: k in m ==> m[k] < |es| && es[m[k]].key == k)
    && (forall p :: 0 <= p < |es| ==> es[p].key in m)
  }

  lemma RecordEntry(seen: seq<Entry>, m: map<string, nat>, e: Entry)
    requires Indexes(m, Collapse(seen))
    ensures var es := Collapse(seen);
            if e.key in m then
              m[e.key] < |es| && es[m[e.key]].key == e.key &&
              Collapse(seen + [e]) == es[m[e.key] := e] && Indexes(m, es[m[e.key] := e])
            else
              Collapse(seen + [e]) == es + [e] && Indexes(m[e.key := |es|], es + [e])
  {
    CollapseOneMore(seen, e);
  }

  /** seen holds the declarations of the lines before i. */
  ghost predicate SeenUpTo(seen: seq<Entry>, lines: seq<string>, i: nat) {
    Declarations(lines, 0) == seen + Declarations(lines, i)
  }

  lemma OneDeclaration(seen: seq<Entry>, lines: seq<string>, i: nat)
    requires i < |lines| && Declaration(lines[i]).Some? && SeenUpTo(seen, lines, i)
    ensures var d := Declaration(lines[i]).value;
            var v := ValueAt(lines, i, d.value);
            SeenUpTo(seen + [Entry(d.key, v.0)], lines, v.1 + 1)
  {
    hide ValueAt, Declaration;
    var d := Declaration(lines[i]).value;
    var v := ValueAt(lines, i, d.value);
    var e := [Entry(d.key, v.0)];
    assert seen + (e + Declarations(lines, v.1 + 1)) == (seen + e) + Declarations(lines, v.1 + 1);
  }

  lemma NothingSeen(lines: seq<string>)
    ensures SeenUpTo([], lines, 0) && Collapse([]) == [] && Indexes(map[], [])
  {
  }

  lemma AllSeen(seen: seq<Entry>, content: string, i: nat)
    requires SeenUpTo(seen, Lines(content), i) && i >= |Lines(content)|
    ensures ParseEnv(content) == Collapse(seen)
  {
    assert seen + [] == seen;
  }

  lemma NoDeclaration(seen: seq<Entry>, lines: seq<string>, i: nat)
    requires i < |lines| && Declaration(lines[i]).None? && SeenUpTo(seen, lines, i)
    ensures SeenUpTo(seen, lines, i + 1)
  {
  }

  method ParseEnvContent(content: string) returns (entries: seq<Entry>)
    ensures entries == ParseEnv(content)
  {
    hide *;
    entries := [];
    var indexByKey: map<string, nat> := map[];
    var lines := Lines(content);
    LinesHaveNoNewline(content);
    ghost var seen: seq<Entry> := [];
    NothingSeen(lines);
    var i := 0;
    while i < |lines|
      invariant SeenUpTo(seen, lines, i)
      invariant entries == Collapse(seen)
      invariant Indexes(indexByKey, entries)
      decreases |lines| - i
    {
      var d := Declaration(lines[i]);
      if d.None? {
        NoDeclaration(seen, lines, i);
        i := i + 1;
        continue;
      }
      var Entry(key, rest) := d.value;
      ghost var first := i;
      var value;
      if StartsQuoted(rest) {
        RestHasNoNewline(lines[i]);
        QuoteIsThere(rest);
        value, i := CollectQuoted(lines, i, rest);
        if rest[0] == '"' {
          value := UnescapeValue(value);
        }
        QuotedValueIs(lines, first, rest, value, i);
      } else {
        value := PlainValue(rest);
        PlainValueIs(lines, i, rest);
      }
      OneDeclaration(seen, lines, first);
      RecordEntry(seen, indexByKey, Entry(key, value));
      seen := seen + [Entry(key, value)];
      if key in indexByKey {
        entries := entries[indexByKey[key] := entries[indexByKey[key]].(value := value)];
      } else {
        indexByKey := indexByKey[key := |entries|];
        entries := entries + [Entry(key, value)];
      }
      i := i + 1;
    }
    AllSeen(seen, content, i);
  }
}
