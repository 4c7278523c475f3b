/** Quoting for the statements that PostgreSQL takes without bind parameters.
    Strings are Go strings: one character stands for one byte. */
module PgSafe {
  import opened Text

  const MAX_IDENT_LEN: nat := 63

  datatype IdentError = EmptyIdent | IdentTooLong | IdentCharset

  function QuoteIdent(s: string): string {
    "\"" + ReplaceAll(s, "\"", "\"\"") + "\""
  }

  function QuoteLiteral(s: string): string {
    var quoted := "'" + ReplaceAll(s, "'", "''") + "'";
    if '\\' in s then "E" + ReplaceAll(quoted, "\\", "\\\\") else quoted
  }

  predicate IdentStart(c: char) {
    'a' <= c <= 'z' || 'A' <= c <= 'Z' || c == '_'
  }

  predicate IdentChar(c: char) {
    IdentStart(c) || '0' <= c <= '9' || c == '$'
  }

  /** [A-Za-z_][A-Za-z0-9_$]* */
  predicate MatchesIdent(s: string) {
    s != "" && IdentStart(s[0]) && forall i :: 0 <= i < |s| ==> IdentChar(s[i])
  }

  predicate ValidIdent(s: string) {
    |s| <= MAX_IDENT_LEN && MatchesIdent(s)
  }

  method ValidateIdent(s: string) returns (err: Option<IdentError>)
    ensures err == None <==> ValidIdent(s)
    ensures err == Some(EmptyIdent) <==> s == ""
    ensures err == Some(IdentTooLong) <==> |s| > MAX_IDENT_LEN
    ensures err == Some(IdentCharset) <==> 0 < |s| <= MAX_IDENT_LEN && !MatchesIdent(s)
  {
    if s == "" {
      return Some(EmptyIdent);
    }
    if |s| > MAX_IDENT_LEN {
      return Some(IdentTooLong);
    }
    for i := 0 to |s|
      invariant forall j :: 0 <= j < i ==> IdentChar(s[j])
      invariant i > 0 ==> IdentStart(s[0])
    {
      var c := s[i];
      if 'a' <= c <= 'z' || 'A' <= c <= 'Z' || c == '_' {
        // always allowed
      } else if '0' <= c <= '9' || c == '$' {
        if i == 0 {
          return Some(IdentCharset);
        }
      } else {
        return Some(IdentCharset);
      }
    }
    return None;
  }

  function AlterRole(username: string, password: string): string {
    "ALTER ROLE " + QuoteIdent(username) + " WITH PASSWORD " + QuoteLiteral(password)
  }
}
