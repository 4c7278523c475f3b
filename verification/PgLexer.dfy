/** The lexer of sections 4.1.1, 4.1.2.1 and 4.1.2.2 of the PostgreSQL manual; it gives up on anything else. */
module PgLexer {
  import opened Text
  import opened PgSafe

  datatype Token = Word(text: string) | Ident(name: string) | Literal(value: string)

  /** A delimited text read up to its closing delimiter, and what follows it. */
  datatype Body = Body(text: string, rest: string)

  predicate WordChar(c: char) {
    'a' <= c <= 'z' || 'A' <= c <= 'Z' || '0' <= c <= '9' || c in "_$" || c >= '\U{80}'
  }

  /** Length of the run of word characters at the start of s. */
  function WordLength(s: string): (n: nat)
    ensures n <= |s|
  {
    if s != "" && WordChar(s[0]) then 1 + WordLength(s[1..]) else 0
  }

  function LowerChar(c: char): char {
    if 'A' <= c <= 'Z' then c - 'A' + 'a' else c
  }

  function Lower(s: string): string {
    seq(|s|, i requires 0 <= i < |s| => LowerChar(s[i]))
  }

  /** Longer identifiers are cut off. */
  const NAME_LENGTH: nat := 63

  function Truncate(s: string): string {
    if |s| <= NAME_LENGTH then s else s[..NAME_LENGTH]
  }

  /** Up to the closing q; a doubled q stands for one. */
  function Delimited(s: string, q: char): (r: Option<Body>)
    ensures r.Some? ==> |r.value.rest| < |s|
  {
    if s == "" then None
    else if s[0] == q && !(|s| > 1 && s[1] == q) then Some(Body("", s[1..]))
    else
      match Delimited(s[if s[0] == q then 2 else 1..], q)
      case None => None
      case Some(b) => Some(Body([s[0]] + b.text, b.rest))
  }

  /** The character that an escape names; None for the numeric escapes, which are not modelled. */
  function Escaped(c: char): Option<char> {
    if c == 'b' then Some('\U{08}')
    else if c == 'f' then Some('\U{0C}')
    else if c == 'n' then Some('\n')
    else if c == 'r' then Some('\r')
    else if c == 't' then Some('\t')
    else if '0' <= c <= '7' || c in "xuU" then None
    else Some(c)
  }

  /** A string constant in which backslash escapes count, up to its closing quote. */
  function EscapeBody(s: string): (r: Option<Body>)
    ensures r.Some? ==> |r.value.rest| < |s|
  {
    if s == "" then None
    else if s[0] == '\'' && !(|s| > 1 && s[1] == '\'') then Some(Body("", s[1..]))
    else if s[0] == '\\' then
      if |s| == 1 || Escaped(s[1]).None? then None
      else
        match EscapeBody(s[2..])
        case None => None
        case Some(b) => Some(Body([Escaped(s[1]).value] + b.text, b.rest))
    else
      match EscapeBody(s[if s[0] == '\'' then 2 else 1..])
      case None => None
      case Some(b) => Some(Body([s[0]] + b.text, b.rest))
  }

  function AddToken(t: Token, more: Option<seq<Token>>): Option<seq<Token>> {
    match more
    case None => None
    case Some(ts) => Some([t] + ts)
  }

  /** The tokens of s; conforming is the setting standard_conforming_strings. */
  function Lex(s: string, conforming: bool): Option<seq<Token>>
    decreases |s|
  {
    if s == "" then Some([])
    else if s[0] in " \t\n\r\U{0C}" then Lex(s[1..], conforming)
    else if s[0] == '"' then
      match Delimited(s[1..], '"')
      case None => None
      case Some(b) => if b.text == "" then None else AddToken(Ident(Truncate(b.text)), Lex(b.rest, conforming))
    else if s[0] == '\'' then
      match if conforming then Delimited(s[1..], '\'') else EscapeBody(s[1..])
      case None => None
      case Some(b) => AddToken(Literal(b.text), Lex(b.rest, conforming))
    else if s[0] in "eE" && |s| > 1 && s[1] == '\'' then
      match EscapeBody(s[2..])
      case None => None
      case Some(b) => AddToken(Literal(b.text), Lex(b.rest, conforming))
    else if s[0] in "bBxXnNuU" && |s| > 1 && s[1] in "'&" then None
    else if WordChar(s[0]) && !('0' <= s[0] <= '9' || s[0] == '$') then
      var n := WordLength(s);
      AddToken(Word(Truncate(Lower(s[..n]))), Lex(s[n..], conforming))
    else None
  }

  // ---- Reading back what the quoting functions wrote ----

  lemma DelimitedStep(c: char, q: char, tail: string)
    ensures Delimited(if c == q then [q, q] + tail else [c] + tail, q) == Prepend(c, Delimited(tail, q))
  {
    assert ([q, q] + tail)[2..] == tail && ([c] + tail)[1..] == tail;
  }

  lemma DelimitedEnd(q: char, rest: string)
    requires rest == "" || rest[0] != q
    ensures Delimited([q] + rest, q) == Some(Body("", rest))
  {
    assert ([q] + rest)[1..] == rest;
  }

  function Prepend(c: char, b: Option<Body>): Option<Body> {
    match b
    case None => None
    case Some(x) => Some(Body([c] + x.text, x.rest))
  }

  lemma EscapedPair(c: char, tail: string)
    requires c in "'\\"
    ensures EscapeBody([c, c] + tail) == Prepend(c, EscapeBody(tail))
  {
    var s := [c, c] + tail;
    assert s[2..] == tail && s[0] == s[1] == c;
  }

  lemma PlainStep(c: char, tail: string)
    requires c !in "'\\"
    ensures EscapeBody([c] + tail) == Prepend(c, EscapeBody(tail))
  {
    var s := [c] + tail;
    assert s[1..] == tail && s[0] == c;
  }

  lemma EscapeStep(c: char, tail: string)
    ensures c in "'\\" ==> EscapeBody([c, c] + tail) == Prepend(c, EscapeBody(tail))
    ensures c !in "'\\" ==> EscapeBody([c] + tail) == Prepend(c, EscapeBody(tail))
  {
    hide *;
    if c in "'\\" {
      EscapedPair(c, tail);
    } else {
      PlainStep(c, tail);
    }
  }

  lemma EscapeEnd(rest: string)
    requires rest == "" || rest[0] != '\''
    ensures EscapeBody("'" + rest) == Some(Body("", rest))
  {
    assert ("'" + rest)[1..] == rest;
  }

  lemma {:induction false} DelimitedReads(v: string, q: char, rest: string)
    requires rest == "" || rest[0] != q
    ensures Delimited(ReplaceAll(v, [q], [q, q]) + [q] + rest, q) == Some(Body(v, rest))
  {
    hide Delimited;
    if v == "" {
      assert ReplaceAll(v, [q], [q, q]) + [q] + rest == [q] + rest;
      DelimitedEnd(q, rest);
    } else {
      DelimitedStep(v[0], q, ReplaceAll(v[1..], [q], [q, q]) + [q] + rest);
      DelimitedReads(v[1..], q, rest);
      var tail := ReplaceAll(v[1..], [q], [q, q]) + [q] + rest;
      assert v[..1] == [v[0]];
      var s := ReplaceAll(v, [q], [q, q]) + [q] + rest;
      if v[0] == q {
        assert s == [q, q] + tail;
      } else {
        assert s == [v[0]] + tail;
      }
      assert v == [v[0]] + v[1..];
    }
  }

  function DoubleBoth(v: string): string {
    ReplaceAll(ReplaceAll(v, "'", "''"), "\\", "\\\\")
  }

  lemma DoubleBothStep(v: string)
    requires v != ""
    ensures DoubleBoth(v) == (if v[0] in "'\\" then [v[0], v[0]] else [v[0]]) + DoubleBoth(v[1..])
  {
    var h, t := [v[0]], v[1..];
    assert v == h + t && h[..1] == h && h[1..] == "";
    ReplaceCharConcat(h, t, '\'', "''");
    var h1 := ReplaceAll(h, "'", "''");
    ReplaceCharConcat(h1, ReplaceAll(t, "'", "''"), '\\', "\\\\");
    if v[0] == '\'' {
      assert h1 == "''";
      ReplaceCharAbsent(h1, '\\', "\\\\");
    } else {
      assert h1 == h;
      if v[0] != '\\' {
        ReplaceCharAbsent(h1, '\\', "\\\\");
      }
    }
  }

  lemma Regroup(x: string, y: string, rest: string)
    ensures x + y + "'" + rest == x + (y + "'" + rest)
  {
  }

  lemma {:induction false} EscapeReads(v: string, rest: string)
    requires rest == "" || rest[0] != '\''
    ensures EscapeBody(DoubleBoth(v) + "'" + rest) == Some(Body(v, rest))
  {
    hide EscapeBody;
    if v == "" {
      assert DoubleBoth(v) + "'" + rest == "'" + rest;
      EscapeEnd(rest);
    } else {
      hide *;
      var c := v[0];
      EscapeReads(v[1..], rest);
      DoubleBothStep(v);
      Regroup(if c in "'\\" then [c, c] else [c], DoubleBoth(v[1..]), rest);
      EscapeStep(c, DoubleBoth(v[1..]) + "'" + rest);
      PrependRead(c, v, rest);
    }
  }

  lemma PrependRead(c: char, v: string, rest: string)
    requires v != "" && c == v[0]
    ensures Prepend(c, Some(Body(v[1..], rest))) == Some(Body(v, rest))
  {
    assert v == [c] + v[1..];
  }

  /** Without backslashes the two readings of a string constant agree. */
  lemma {:induction false} NoEscapesAgree(s: string)
    requires '\\' !in s
    ensures EscapeBody(s) == Delimited(s, '\'')
  {
    if s == "" {
    } else {
      assert s[0] in s;
      NoEscapesAgree(s[1..]);
      if |s| > 1 {
        NoEscapesAgree(s[2..]);
      }
    }
  }

  lemma DoublingKeepsBackslashes(v: string, rest: string)
    requires '\\' !in v && '\\' !in rest
    ensures '\\' !in ReplaceAll(v, "'", "''") + "'" + rest
  {
    if v != "" {
      assert v[0] in v && v[..1] == [v[0]];
      DoublingKeepsBackslashes(v[1..], rest);
    }
  }

  lemma PlainLiteralLexes(s: string, conforming: bool)
    ensures Lex("'" + s, conforming) ==
            var b := if conforming then Delimited(s, '\'') else EscapeBody(s);
            if b.Some? then AddToken(Literal(b.value.text), Lex(b.value.rest, conforming)) else None
  {
    hide Delimited, EscapeBody;
    assert ("'" + s)[1..] == s;
  }

  /** The backslash form of a quoted literal. */
  lemma QuotedWithBackslash(p: string)
    requires '\\' in p
    ensures QuoteLiteral(p) == "E'" + (DoubleBoth(p) + "'" + "")
  {
    var q := ReplaceAll(p, "'", "''");
    ReplaceCharAbsent("'", '\\', "\\\\");
    hide ReplaceAll;
    ReplaceCharConcat("'", q + "'", '\\', "\\\\");
    ReplaceCharConcat(q, "'", '\\', "\\\\");
    assert "'" + q + "'" == "'" + (q + "'");
    assert "E'" + (DoubleBoth(p) + "'" + "") == "E" + ("'" + (DoubleBoth(p) + "'"));
  }

  lemma QuotedWithoutBackslash(p: string)
    requires '\\' !in p
    ensures QuoteLiteral(p) == "'" + (ReplaceAll(p, "'", "''") + "'" + "")
  {
    hide ReplaceAll;
  }

  lemma EscapedLiteralLexes(s: string, conforming: bool)
    ensures Lex("E'" + s, conforming) ==
            var b := EscapeBody(s);
            if b.Some? then AddToken(Literal(b.value.text), Lex(b.value.rest, conforming)) else None
  {
    hide EscapeBody, Delimited;
    assert ("E'" + s)[2..] == s;
  }

  lemma NoTextNoTokens(conforming: bool)
    ensures Lex("", conforming) == Some([])
  {
  }

  lemma QuotedLiteralReads(p: string, conforming: bool)
    ensures Lex(QuoteLiteral(p), conforming) == Some([Literal(p)])
  {
    hide Lex, EscapeBody, Delimited, QuoteLiteral, DoubleBoth, ReplaceAll, AddToken;
    NoTextNoTokens(conforming);
    AddFirst(Literal(p));
    if '\\' in p {
      QuotedWithBackslash(p);
      EscapeReads(p, "");
      EscapedLiteralLexes(DoubleBoth(p) + "'" + "", conforming);
    } else {
      QuotedWithoutBackslash(p);
      DelimitedReads(p, '\'', "");
      DoublingKeepsBackslashes(p, "");
      NoEscapesAgree(ReplaceAll(p, "'", "''") + "'" + "");
      PlainLiteralLexes(ReplaceAll(p, "'", "''") + "'" + "", conforming);
    }
  }

  lemma AddFirst(t: Token)
    ensures AddToken(t, Some([])) == Some([t])
    ensures forall more, u :: AddToken(t, more) == Some([u]) ==> t == u
  {
    assert [t] + [] == [t];
    forall more, u | AddToken(t, more) == Some([u]) ensures t == u {
      assert ([t] + more.value)[0] == t;
    }
  }

  lemma IdentLexes(s: string, conforming: bool)
    requires Delimited(s, '"').Some? && Delimited(s, '"').value.text != ""
    ensures var b := Delimited(s, '"').value;
            Lex("\"" + s, conforming) == AddToken(Ident(Truncate(b.text)), Lex(b.rest, conforming))
  {
    hide Delimited;
    assert ("\"" + s)[1..] == s;
  }

  lemma QuotedIdentReads(name: string, rest: string, conforming: bool)
    requires name != "" && (rest == "" || rest[0] != '"')
    ensures Lex(QuoteIdent(name) + rest, conforming) == AddToken(Ident(Truncate(name)), Lex(rest, conforming))
  {
    hide Lex, Delimited, ReplaceAll;
    DelimitedReads(name, '"', rest);
    var s := ReplaceAll(name, "\"", "\"\"") + "\"" + rest;
    assert QuoteIdent(name) + rest == "\"" + s;
    IdentLexes(s, conforming);
  }

  lemma {:induction false} WordRun(word: string, rest: string)
    requires forall i :: 0 <= i < |word| ==> WordChar(word[i])
    requires rest == "" || !WordChar(rest[0])
    ensures WordLength(word + rest) == |word|
  {
    if word == "" {
      assert word + rest == rest;
    } else {
      assert (word + rest)[1..] == word[1..] + rest;
      WordRun(word[1..], rest);
    }
  }

  lemma WordReads(word: string, rest: string, conforming: bool)
    requires 2 <= |word| && MatchesIdent(word)
    requires rest == "" || rest[0] == ' '
    ensures Lex(word + rest, conforming) == AddToken(Word(Truncate(Lower(word))), Lex(rest, conforming))
  {
    var s := word + rest;
    WordRun(word, rest);
    assert s[..|word|] == word && s[|word|..] == rest && s[1] == word[1];
  }

  lemma SpaceSkipped(rest: string, conforming: bool)
    ensures Lex(" " + rest, conforming) == Lex(rest, conforming)
  {
    assert (" " + rest)[1..] == rest;
  }

  lemma Keywords()
    ensures Truncate(Lower("ALTER")) == "alter" && Truncate(Lower("ROLE")) == "role"
    ensures Truncate(Lower("WITH")) == "with" && Truncate(Lower("PASSWORD")) == "password"
    ensures MatchesIdent("ALTER") && MatchesIdent("ROLE") && MatchesIdent("WITH") && MatchesIdent("PASSWORD")
  {
  }

  /** For every valid role name and every password, under either setting, the statement has exactly its six tokens. */
  lemma AlterRoleReads(username: string, password: string, conforming: bool)
    requires ValidIdent(username)
    ensures Lex(AlterRole(username, password), conforming)
         == Some([Word("alter"), Word("role"), Ident(username), Word("with"), Word("password"), Literal(password)])
  {
    hide Lex, QuoteIdent, QuoteLiteral, Lower;
    var lit := QuoteLiteral(password);
    QuotedLiteralReads(password, conforming);
    var r4 := " " + lit;
    SpaceSkipped(lit, conforming);
    Keywords();
    WordReads("PASSWORD", r4, conforming);
    var r3 := "PASSWORD" + r4;
    SpaceSkipped(r3, conforming);
    WordReads("WITH", " " + r3, conforming);
    var r2 := "WITH" + (" " + r3);
    SpaceSkipped(r2, conforming);
    QuotedIdentReads(username, " " + r2, conforming);
    var r1 := QuoteIdent(username) + (" " + r2);
    SpaceSkipped(r1, conforming);
    WordReads("ROLE", " " + r1, conforming);
    var r0 := "ROLE" + (" " + r1);
    SpaceSkipped(r0, conforming);
    WordReads("ALTER", " " + r0, conforming);
    assert "ALTER ROLE " == "ALTER" + (" " + ("ROLE" + " "));
    assert " WITH PASSWORD " == " " + ("WITH" + (" " + ("PASSWORD" + " ")));
    assert AlterRole(username, password) == "ALTER" + (" " + r0);
    assert Truncate(username) == username;
    var t5, t4 := [Literal(password)], [Word("password"), Literal(password)];
    var t3, t2 := [Word("with")] + t4, [Ident(username)] + ([Word("with")] + t4);
    assert [Word("password")] + t5 == t4;
    assert [Word("alter")] + ([Word("role")] + t2)
        == [Word("alter"), Word("role"), Ident(username), Word("with"), Word("password"), Literal(password)];
  }

  // ---- Which names are valid ----

  predicate Ascii(s: string) {
    forall i :: 0 <= i < |s| ==> s[i] < '\U{80}'
  }

  lemma {:induction false} WordIsShort(s: string, conforming: bool)
    ensures Lex(s, conforming).Some? && Lex(s, conforming).value != [] && Lex(s, conforming).value[0].Word? ==>
              |Lex(s, conforming).value[0].text| <= |s|
    decreases |s|
  {
    if s != "" && s[0] in " \t\n\r\U{0C}" {
      WordIsShort(s[1..], conforming);
    }
  }

  lemma {:induction false} WordsOnly(s: string)
    ensures forall i :: 0 <= i < WordLength(s) ==> WordChar(s[i])
  {
    if s != "" {
      WordsOnly(s[1..]);
    }
  }

  lemma BareWordReads(s: string, conforming: bool)
    requires ValidIdent(s)
    ensures Ascii(s) && Lex(s, conforming) == Some([Word(Lower(s))])
  {
    WordRun(s, "");
    assert s + "" == s && s[..|s|] == s && s[|s|..] == "";
    assert Truncate(Lower(s)) == Lower(s);
    if |s| > 1 {
      assert IdentChar(s[1]);
    }
    var w := Word(Lower(s));
    assert Lex(s, conforming) == AddToken(w, Lex("", conforming));
    assert [w] + [] == [w];
  }

  /** What a text starts with that reads as a word. */
  lemma WordFirst(s: string, conforming: bool)
    requires s != "" && s[0] !in " \t\n\r\U{0C}"
    requires Lex(s, conforming).Some? && Lex(s, conforming).value != [] && Lex(s, conforming).value[0].Word?
    ensures WordChar(s[0]) && !('0' <= s[0] <= '9' || s[0] == '$')
    ensures Lex(s, conforming).value[0] == Word(Truncate(Lower(s[..WordLength(s)])))
  {
  }

  lemma BareWordIsValid(s: string, conforming: bool)
    requires Ascii(s) && Lex(s, conforming) == Some([Word(Lower(s))])
    ensures ValidIdent(s)
  {
    hide Lower;
    LowerLength(s);
    if s[0] in " \t\n\r\U{0C}" {
      WordIsShort(s[1..], conforming);
    } else {
      WordFirst(s, conforming);
      hide Lex;
      LowerLength(s[..WordLength(s)]);
      WordsOnly(s);
    }
  }

  lemma LowerLength(s: string)
    ensures |Lower(s)| == |s|
  {
  }

  /** A name is valid exactly when it is ASCII and PostgreSQL reads it, written without quotes, as one word that is the
      whole name in lower case. */
  lemma ValidIsBareWord(s: string, conforming: bool)
    ensures ValidIdent(s) <==> Ascii(s) && Lex(s, conforming) == Some([Word(Lower(s))])
  {
    hide *;
    if ValidIdent(s) {
      BareWordReads(s, conforming);
    } else if Ascii(s) && Lex(s, conforming) == Some([Word(Lower(s))]) {
      BareWordIsValid(s, conforming);
    }
  }

  // ---- Why the E prefix ----

  /** The literal without the backslash rule. */
  function PlainQuote(s: string): string {
    "'" + ReplaceAll(s, "'", "''") + "'"
  }

  function CountBackslashes(s: string): nat {
    if s == "" then 0 else (if s[0] == '\\' then 1 else 0) + CountBackslashes(s[1..])
  }

  /** What one character of the text is read from: two backslashes, if it is one. */
  lemma EscapeBodyUnfolds(s: string) returns (k: nat, c: char)
    requires EscapeBody(s).Some? && EscapeBody(s).value.text != ""
    ensures 1 <= k <= 2 && k <= |s| && EscapeBody(s[k..]).Some?
    ensures EscapeBody(s).value.text == [c] + EscapeBody(s[k..]).value.text
    ensures c == '\\' ==> k == 2 && s[0] == s[1] == '\\'
  {
    k := if s[0] == '\'' || s[0] == '\\' then 2 else 1;
    c := if s[0] == '\\' then Escaped(s[1]).value else s[0];
  }

  lemma CountCons(c: char, s: string)
    ensures CountBackslashes([c] + s) == (if c == '\\' then 1 else 0) + CountBackslashes(s)
  {
    assert ([c] + s)[1..] == s;
  }

  /** Reading with escapes at least halves the backslashes. */
  lemma {:induction false} EscapesHalve(s: string)
    ensures EscapeBody(s).Some? ==> 2 * CountBackslashes(EscapeBody(s).value.text) <= CountBackslashes(s)
  {
    hide EscapeBody, CountBackslashes;
    if EscapeBody(s).None? {
    } else if EscapeBody(s).value.text == "" {
      NoBackslashes();
    } else {
      var k, c := EscapeBodyUnfolds(s);
      EscapesHalve(s[k..]);
      CountCons(c, EscapeBody(s[k..]).value.text);
      CountCons(s[0], s[1..]);
      assert s == [s[0]] + s[1..];
      if k == 2 {
        CountCons(s[1], s[2..]);
        assert s[1..] == [s[1]] + s[2..];
      }
    }
  }

  lemma NoBackslashes()
    ensures CountBackslashes("") == 0
  {
  }

  lemma {:induction false} PlainBackslashes(v: string)
    ensures CountBackslashes(ReplaceAll(v, "'", "''") + "'") == CountBackslashes(v)
    ensures '\\' in v ==> CountBackslashes(v) > 0
  {
    if v == "" {
      assert ReplaceAll(v, "'", "''") + "'" == "'";
    } else {
      PlainBackslashes(v[1..]);
      assert v[..1] == [v[0]];
      var s, tail := ReplaceAll(v, "'", "''") + "'", ReplaceAll(v[1..], "'", "''") + "'";
      if v[0] == '\'' {
        assert s == "''" + tail && s[1..][1..] == tail;
      } else {
        assert s == [v[0]] + tail && s[1..] == tail;
      }
    }
  }

  /** Plain quoting survives both settings exactly for values without a backslash. */
  lemma PlainQuoteDomain(p: string)
    ensures (forall conforming :: Lex(PlainQuote(p), conforming) == Some([Literal(p)])) <==> '\\' !in p
  {
    hide Lex, EscapeBody;
    var body := ReplaceAll(p, "'", "''") + "'";
    assert PlainQuote(p) == "'" + body;
    PlainLiteralLexes(body, false);
    if '\\' in p {
      EscapesHalve(body);
      PlainBackslashes(p);
      if EscapeBody(body).Some? {
        AddFirst(Literal(EscapeBody(body).value.text));
      }
      assert Lex(PlainQuote(p), false) != Some([Literal(p)]);
    } else {
      forall conforming ensures Lex(PlainQuote(p), conforming) == Some([Literal(p)]) {
        QuotedLiteralReads(p, conforming);
      }
    }
  }
}
