/** API tokens and CLI login codes over whole runs,
    with other steps between a request's check and its insert. */
module TokenFlow {
  import opened Text
  import opened Rbac

  type UserId = nat
  type TokenId = nat
  type CodeId = nat

  const CODE_TTL: nat := 60

  datatype Origin = ByUser | ByToken(parent: TokenId) | ByCode(code: CodeId, verifier: string)

  /** The row of api_tokens. Its position is its id; origin is not stored, it says how the row came about. */
  datatype Token = Token(user: UserId, name: string, scopes: seq<Permission>, role: Role, expiresAt: Option<nat>,
                         revoked: bool, origin: Origin)

  /** The row of cli_login_codes. */
  datatype Code = Code(user: UserId, role: Role, challenge: string, expiresAt: nat, usedAt: Option<nat>)

  /** A code request past its checks, with the role its user had when it was let in. */
  datatype CodeRequest = CodeRequest(user: UserId, role: Role, challenge: string, askedAt: nat)

  /** minting and asking: requests past all checks, before the insert. claimed: codes just marked used, with the
      verifier sent. */
  datatype State = State(now: nat, roles: map<UserId, Role>, tokens: seq<Token>, minting: seq<Token>,
                         asking: seq<CodeRequest>, codes: seq<Code>, claimed: map<CodeId, string>)

  datatype Step =
    | Tick
    | SetRole(u: UserId, role: Role)
    | AskAsUser(u: UserId, name: string, scopes: seq<Permission>, expiresAt: Option<nat>)
    | AskWithToken(t: TokenId, name: string, scopes: seq<Permission>, expiresAt: Option<nat>)
    | Insert(k: nat, ok: bool)
    | Revoke(t: TokenId, u: UserId)
    | AskCode(u: UserId, codeChallenge: string, challengeMethod: string)
    | InsertCode(k: nat, stamped: nat, ok: bool)
    | Claim(c: CodeId, verifier: string)
    | Finish(c: CodeId, ok: bool)

  function Initial(): State {
    State(0, map[], [], [], [], [], map[])
  }

  /** The token is found by its hash and its user exists. */
  predicate Active(s: State, t: TokenId) {
    && t < |s.tokens|
    && !s.tokens[t].revoked
    && (s.tokens[t].expiresAt.Some? ==> s.tokens[t].expiresAt.value > s.now)
    && s.tokens[t].user in s.roles
  }

  /** The role a request with this token runs under. */
  function EffectiveRole(s: State, t: TokenId): Role
    requires t < |s.tokens| && s.tokens[t].user in s.roles
  {
    LowerRole(s.tokens[t].role, s.roles[s.tokens[t].user])
  }

  /** What the token may be used for now. */
  predicate Usable(s: State, t: TokenId, p: Permission) {
    Active(s, t) && Authorized(EffectiveRole(s, t), Some(s.tokens[t].scopes), p)
  }

  /** An empty list asks for the narrowest grant. */
  function Requested(scopes: seq<Permission>): seq<Permission> {
    if scopes == [] then [ReadSecrets] else scopes
  }

  predicate MayGrant(role: Role, scopes: seq<Permission>) {
    forall p :: p in scopes ==> !p.Unknown? && Grants(role, p)
  }

  /** The route asks for a scope, which only limits tokens; the handler asks for a name and checks each scope
      against the role. */
  predicate MayMint(role: Role, held: Scopes, name: string, scopes: seq<Permission>) {
    ScopesInclude(held, ManageTokens) && name != "" && MayGrant(role, scopes)
  }

  function Asked(s: State, held: Scopes, row: Token): State {
    if MayMint(row.role, held, row.name, row.scopes) then s.(minting := s.minting + [row]) else s
  }

  /** The row that a request with token t inserts. */
  function Child(s: State, t: TokenId, name: string, scopes: seq<Permission>, expiresAt: Option<nat>): Token
    requires Active(s, t)
  {
    Token(s.tokens[t].user, name, Requested(scopes), EffectiveRole(s, t), expiresAt, false, ByToken(t))
  }

  predicate CodeOpen(s: State, c: CodeId) {
    c < |s.codes| && s.codes[c].usedAt.None? && s.codes[c].expiresAt > s.now
  }

  /** The row the exchange of a code inserts. */
  function LoginToken(code: Code, c: CodeId, verifier: string): Token {
    Token(code.user, "CLI Login", Granted(code.role, ALL_SCOPES), code.role, None, false, ByCode(c, verifier))
  }

  function Next(s: State, step: Step, challengeOf: string -> string): State {
    match step
    case Tick => s.(now := s.now + 1)
    case SetRole(u, role) => s.(roles := s.roles[u := role])
    case AskAsUser(u, name, scopes, expiresAt) =>
      if u !in s.roles then s
      else Asked(s, None, Token(u, name, Requested(scopes), s.roles[u], expiresAt, false, ByUser))
    case AskWithToken(t, name, scopes, expiresAt) =>
      if Active(s, t) then Asked(s, Some(s.tokens[t].scopes), Child(s, t, name, scopes, expiresAt)) else s
    case Insert(k, ok) =>
      if k < |s.minting| then
        var rest := s.minting[..k] + s.minting[k + 1..];
        s.(minting := rest, tokens := if ok then s.tokens + [s.minting[k]] else s.tokens)
      else s
    case Revoke(t, u) =>
      if t < |s.tokens| && s.tokens[t].user == u then s.(tokens := s.tokens[t := s.tokens[t].(revoked := true)]) else s
    case AskCode(u, codeChallenge, challengeMethod) =>
      if u in s.roles && codeChallenge != "" && challengeMethod in {"", "S256"} then
        s.(asking := s.asking + [CodeRequest(u, s.roles[u], codeChallenge, s.now)])
      else s
    case InsertCode(k, stamped, ok) =>
      if k < |s.asking| && s.asking[k].askedAt <= stamped <= s.now then
        var r := s.asking[k];
        var rest := s.(asking := s.asking[..k] + s.asking[k + 1..]);
        if ok then rest.(codes := s.codes + [Code(r.user, r.role, r.challenge, stamped + CODE_TTL, None)]) else rest
      else s
    case Claim(c, verifier) =>
      if verifier != "" && CodeOpen(s, c) then
        s.(codes := s.codes[c := s.codes[c].(usedAt := Some(s.now))], claimed := s.claimed[c := verifier])
      else s
    case Finish(c, ok) =>
      if c in s.claimed && c < |s.codes| then
        var done := s.(claimed := s.claimed - {c});
        if ok && challengeOf(s.claimed[c]) == s.codes[c].challenge then
          done.(tokens := s.tokens + [LoginToken(s.codes[c], c, s.claimed[c])])
        else done
      else s
  }

  // ---- The invariants ----

  /** A token's scopes are permissions of its role snapshot. */
  predicate ScopesFit(t: Token) {
    forall p :: p in t.scopes ==> Grants(t.role, p)
  }

  /** A token minted with another one: same user, and no higher a snapshot. */
  predicate ChainFits(tokens: seq<Token>, t: Token) {
    t.origin.ByToken? ==>
      t.origin.parent < |tokens| && tokens[t.origin.parent].user == t.user
      && Rank(t.role) <= Rank(tokens[t.origin.parent].role)
  }

  /** A token from a code: the code was claimed before it expired, with a matching verifier, for this user and role. */
  predicate CodeFits(s: State, t: Token, challengeOf: string -> string) {
    t.origin.ByCode? ==>
      && t.origin.code < |s.codes| && t.origin.code !in s.claimed
      && var k := s.codes[t.origin.code];
         && k.usedAt.Some? && k.usedAt.value < k.expiresAt
         && challengeOf(t.origin.verifier) == k.challenge
         && t.user == k.user && t.role == k.role
  }

  predicate MintInv(s: State) {
    && (forall i :: 0 <= i < |s.tokens| ==> ScopesFit(s.tokens[i]) && ChainFits(s.tokens[..i], s.tokens[i]))
    && (forall i :: 0 <= i < |s.minting| ==>
          ScopesFit(s.minting[i]) && ChainFits(s.tokens, s.minting[i]) && !s.minting[i].origin.ByCode?)
  }

  predicate CodeInv(s: State, challengeOf: string -> string) {
    && (forall c :: 0 <= c < |s.codes| && s.codes[c].usedAt.Some? ==> s.codes[c].usedAt.value < s.codes[c].expiresAt)
    && (forall c :: c in s.claimed ==> c < |s.codes| && s.codes[c].usedAt.Some?)
    && (forall i :: 0 <= i < |s.tokens| ==> CodeFits(s, s.tokens[i], challengeOf))
    && (forall i, j :: 0 <= i < j < |s.tokens| && s.tokens[i].origin.ByCode? && s.tokens[j].origin.ByCode? ==>
          s.tokens[i].origin.code != s.tokens[j].origin.code)
  }

  predicate Inv(s: State, challengeOf: string -> string) {
    MintInv(s) && CodeInv(s, challengeOf)
  }

  // ---- Each step keeps them ----

  lemma ChainGrows(tokens: seq<Token>, more: seq<Token>, t: Token)
    requires ChainFits(tokens, t) && tokens <= more
    ensures ChainFits(more, t)
  {
  }

  /** Revoking changes no snapshot. */
  lemma ChainRevoked(tokens: seq<Token>, k: nat, t: Token)
    requires ChainFits(tokens, t) && k < |tokens|
    ensures ChainFits(tokens[k := tokens[k].(revoked := true)], t)
  {
  }

  lemma AskedKeepsMint(s: State, held: Scopes, row: Token)
    requires MintInv(s) && ChainFits(s.tokens, row) && !row.origin.ByCode?
    ensures MintInv(Asked(s, held, row))
  {
    hide ChainFits, Grants, ScopesInclude;
  }

  lemma InsertKeepsMint(s: State, k: nat)
    requires MintInv(s) && k < |s.minting|
    ensures MintInv(s.(minting := s.minting[..k] + s.minting[k + 1..], tokens := s.tokens + [s.minting[k]]))
    ensures MintInv(s.(minting := s.minting[..k] + s.minting[k + 1..]))
  {
    hide ScopesFit;
    var rest := s.minting[..k] + s.minting[k + 1..];
    var tokens := s.tokens + [s.minting[k]];
    forall i | 0 <= i < |rest|
      ensures rest[i] in s.minting && ScopesFit(rest[i]) && ChainFits(s.tokens, rest[i]) && !rest[i].origin.ByCode?
    {
      assert rest[i] == s.minting[if i < k then i else i + 1];
    }
    forall i | 0 <= i < |rest| ensures ChainFits(tokens, rest[i]) {
      ChainGrows(s.tokens, tokens, rest[i]);
    }
  }

  lemma RevokeKeepsMint(s: State, t: TokenId)
    requires MintInv(s) && t < |s.tokens|
    ensures MintInv(s.(tokens := s.tokens[t := s.tokens[t].(revoked := true)]))
  {
    var now := s.tokens[t := s.tokens[t].(revoked := true)];
    forall i | 0 <= i < |now| ensures ScopesFit(now[i]) && ChainFits(now[..i], now[i]) {
      assert ScopesFit(s.tokens[i]) && ChainFits(s.tokens[..i], s.tokens[i]);
      if t < i {
        ChainRevoked(s.tokens[..i], t, s.tokens[i]);
        assert now[..i] == s.tokens[..i][t := s.tokens[t].(revoked := true)];
      } else {
        assert now[..i] == s.tokens[..i];
      }
    }
    forall i | 0 <= i < |s.minting| ensures ChainFits(now, s.minting[i]) {
      ChainRevoked(s.tokens, t, s.minting[i]);
    }
  }

  lemma FinishKeepsMint(s: State, t: Token)
    requires MintInv(s) && t.origin.ByCode? && ScopesFit(t)
    ensures MintInv(s.(tokens := s.tokens + [t]))
  {
    var tokens := s.tokens + [t];
    hide ScopesFit;
    forall i | 0 <= i < |s.minting| ensures ChainFits(tokens, s.minting[i]) {
      ChainGrows(s.tokens, tokens, s.minting[i]);
    }
  }

  lemma MintIgnores(s: State, t: State)
    requires MintInv(s) && t.tokens == s.tokens && t.minting == s.minting
    ensures MintInv(t)
  {
  }

  lemma StepKeepsMint(s: State, step: Step, challengeOf: string -> string)
    requires MintInv(s)
    ensures MintInv(Next(s, step, challengeOf))
  {
    hide MintInv, ScopesFit, Granted, Grants, Asked, CodeOpen;
    var t := Next(s, step, challengeOf);
    match step {
      case AskAsUser(u, name, scopes, expiresAt) =>
        if u in s.roles {
          AskedKeepsMint(s, None, Token(u, name, Requested(scopes), s.roles[u], expiresAt, false, ByUser));
        }
      case AskWithToken(p, name, scopes, expiresAt) =>
        if Active(s, p) {
          AskedKeepsMint(s, Some(s.tokens[p].scopes), Child(s, p, name, scopes, expiresAt));
        }
      case Insert(k, ok) =>
        if k < |s.minting| {
          InsertKeepsMint(s, k);
        }
      case Revoke(p, u) =>
        if p < |s.tokens| {
          RevokeKeepsMint(s, p);
        }
      case Finish(c, ok) =>
        if c in s.claimed && c < |s.codes| {
          var row := LoginToken(s.codes[c], c, s.claimed[c]);
          RowFits(row, s.codes[c].role);
          FinishKeepsMint(s, row);
          MintIgnores(s.(tokens := s.tokens + [row]), s.(tokens := s.tokens + [row], claimed := s.claimed - {c}));
          MintIgnores(s, s.(claimed := s.claimed - {c}));
        }
      case _ =>
        MintIgnores(s, t);
    }
  }

  lemma RowFits(row: Token, role: Role)
    requires row.role == role && row.scopes == Granted(role, ALL_SCOPES)
    ensures ScopesFit(row)
  {
    hide Grants, Granted;
    forall p ensures p in Granted(role, ALL_SCOPES) <==> Grants(role, p) {
      ScopesForRoleAreItsPermissions(role, p);
    }
  }

  /** Steps that touch no code and insert no token from one. */
  lemma CodesUntouched(s: State, t: State, challengeOf: string -> string)
    requires CodeInv(s, challengeOf) && t.codes == s.codes && t.claimed == s.claimed && |t.tokens| >= |s.tokens|
    requires forall i :: 0 <= i < |s.tokens| ==> t.tokens[i] == s.tokens[i].(revoked := t.tokens[i].revoked)
    requires forall i :: |s.tokens| <= i < |t.tokens| ==> !t.tokens[i].origin.ByCode?
    ensures CodeInv(t, challengeOf)
  {
    forall i | 0 <= i < |t.tokens| ensures CodeFits(t, t.tokens[i], challengeOf) {
      if i < |s.tokens| {
        assert CodeFits(s, s.tokens[i], challengeOf);
      }
    }
  }

  lemma InsertKeepsCodes(s: State, code: Code, challengeOf: string -> string)
    requires CodeInv(s, challengeOf) && code.usedAt.None?
    ensures CodeInv(s.(codes := s.codes + [code]), challengeOf)
  {
    var t := s.(codes := s.codes + [code]);
    forall i | 0 <= i < |t.tokens| ensures CodeFits(t, t.tokens[i], challengeOf) {
      assert CodeFits(s, s.tokens[i], challengeOf);
    }
  }

  lemma ClaimKeepsCodes(s: State, c: CodeId, verifier: string, challengeOf: string -> string)
    requires CodeInv(s, challengeOf) && CodeOpen(s, c) && verifier != ""
    ensures CodeInv(Next(s, Claim(c, verifier), challengeOf), challengeOf)
  {
    var t := Next(s, Claim(c, verifier), challengeOf);
    assert t == s.(codes := s.codes[c := s.codes[c].(usedAt := Some(s.now))], claimed := s.claimed[c := verifier]);
    hide Next;
    forall i | 0 <= i < |t.tokens| ensures CodeFits(t, t.tokens[i], challengeOf) {
      assert CodeFits(s, s.tokens[i], challengeOf);
    }
  }

  lemma DropClaim(s: State, c: CodeId, challengeOf: string -> string)
    requires CodeInv(s, challengeOf)
    ensures CodeInv(s.(claimed := s.claimed - {c}), challengeOf)
  {
    var t := s.(claimed := s.claimed - {c});
    forall i | 0 <= i < |t.tokens| ensures CodeFits(t, t.tokens[i], challengeOf) {
      assert CodeFits(s, s.tokens[i], challengeOf);
    }
  }

  lemma FinishKeepsCodes(s: State, c: CodeId, row: Token, challengeOf: string -> string)
    requires CodeInv(s, challengeOf) && c in s.claimed && c < |s.codes|
    requires row.origin == ByCode(c, s.claimed[c]) && row.user == s.codes[c].user && row.role == s.codes[c].role
    requires challengeOf(s.claimed[c]) == s.codes[c].challenge
    ensures CodeInv(s.(claimed := s.claimed - {c}, tokens := s.tokens + [row]), challengeOf)
  {
    var t := s.(claimed := s.claimed - {c}, tokens := s.tokens + [row]);
    forall i | 0 <= i < |s.tokens|
      ensures CodeFits(t, t.tokens[i], challengeOf)
      ensures t.tokens[i].origin.ByCode? ==> t.tokens[i].origin.code != c
    {
      assert CodeFits(s, s.tokens[i], challengeOf);
    }
  }

  lemma StepKeepsCodes(s: State, step: Step, challengeOf: string -> string)
    requires MintInv(s) && CodeInv(s, challengeOf)
    ensures CodeInv(Next(s, step, challengeOf), challengeOf)
  {
    hide MintInv, CodeInv, Granted, MayGrant, Active, Rank, CodeFits, MayMint, Child, EffectiveRole;
    var t := Next(s, step, challengeOf);
    match step {
      case InsertCode(k, stamped, ok) =>
        var rest := s.(asking := t.asking);
        CodesUntouched(s, rest, challengeOf);
        if |t.codes| > |s.codes| {
          InsertKeepsCodes(rest, t.codes[|s.codes|], challengeOf);
        }
      case Claim(c, verifier) =>
        if verifier != "" && CodeOpen(s, c) {
          ClaimKeepsCodes(s, c, verifier, challengeOf);
        }
      case Finish(c, ok) =>
        if c in s.claimed && c < |s.codes| {
          DropClaim(s, c, challengeOf);
          if ok && challengeOf(s.claimed[c]) == s.codes[c].challenge {
            FinishKeepsCodes(s, c, t.tokens[|s.tokens|], challengeOf);
          }
        }
      case Insert(k, ok) =>
        if k < |s.minting| {
          MintingIsNotByCode(s, k);
        }
        CodesUntouched(s, t, challengeOf);
      case _ =>
        CodesUntouched(s, t, challengeOf);
    }
  }

  lemma MintingIsNotByCode(s: State, k: nat)
    requires MintInv(s) && k < |s.minting|
    ensures !s.minting[k].origin.ByCode?
  {
  }

  // ---- Runs ----

  ghost predicate CanFollow(a: State, b: State, challengeOf: string -> string) {
    exists step :: b == Next(a, step, challengeOf)
  }

  ghost predicate IsRun(run: seq<State>, challengeOf: string -> string) {
    && run != [] && run[0] == Initial()
    && forall i :: 0 <= i < |run| - 1 ==> CanFollow(run[i], run[i + 1], challengeOf)
  }

  lemma {:induction false} RunKeepsInv(run: seq<State>, i: nat, challengeOf: string -> string)
    requires IsRun(run, challengeOf) && i < |run|
    ensures Inv(run[i], challengeOf)
  {
    hide Next, MintInv, CodeInv;
    if i == 0 {
      StartFits(challengeOf);
    } else {
      RunKeepsInv(run, i - 1, challengeOf);
      assert CanFollow(run[i - 1], run[i], challengeOf);
      var step :| run[i] == Next(run[i - 1], step, challengeOf);
      StepKeepsMint(run[i - 1], step, challengeOf);
      StepKeepsCodes(run[i - 1], step, challengeOf);
    }
  }

  lemma StartFits(challengeOf: string -> string)
    ensures MintInv(Initial()) && CodeInv(Initial(), challengeOf)
  {
  }

  /** What a token may be used for is exactly its scopes, met with its snapshot and with its user's role today;
      since the scopes fit the snapshot, the role of today decides among them. */
  lemma UsableIsTheMeet(run: seq<State>, i: nat, challengeOf: string -> string, t: TokenId, p: Permission)
    requires IsRun(run, challengeOf) && i < |run| && Active(run[i], t)
    ensures var token := run[i].tokens[t]; var role := run[i].roles[token.user];
            Usable(run[i], t, p) <==> p in token.scopes && Grants(token.role, p) && Grants(role, p)
    ensures var token := run[i].tokens[t];
            Usable(run[i], t, p) <==> p in token.scopes && Grants(run[i].roles[token.user], p)
  {
    RunKeepsInv(run, i, challengeOf);
    var token := run[i].tokens[t];
    assert ScopesFit(token);
    hide Inv, Grants, LowerRole;
    LowerRoleIsMeet(token.role, run[i].roles[token.user], p);
  }

  /** The token that one was minted with, and that one's, and so on. */
  predicate MintedFrom(tokens: seq<Token>, t: TokenId, ancestor: TokenId)
    decreases t
  {
    && t < |tokens|
    && (t == ancestor
        || (tokens[t].origin.ByToken? && tokens[t].origin.parent < t
            && MintedFrom(tokens, tokens[t].origin.parent, ancestor)))
  }

  lemma {:induction false} ChainNeverRises(s: State, challengeOf: string -> string, t: TokenId, ancestor: TokenId)
    requires Inv(s, challengeOf) && MintedFrom(s.tokens, t, ancestor)
    ensures ancestor <= t
    ensures s.tokens[t].user == s.tokens[ancestor].user && Rank(s.tokens[t].role) <= Rank(s.tokens[ancestor].role)
    decreases t
  {
    hide CodeInv, Rank;
    if t == ancestor {
    } else {
      assert ChainFits(s.tokens[..t], s.tokens[t]);
      ChainNeverRises(s, challengeOf, s.tokens[t].origin.parent, ancestor);
    }
  }

  /** However long the chain, a token's permissions are among those of every snapshot above it. */
  lemma DelegationStaysBelow(run: seq<State>, i: nat, challengeOf: string -> string, t: TokenId, ancestor: TokenId,
                             p: Permission)
    requires IsRun(run, challengeOf) && i < |run|
    requires MintedFrom(run[i].tokens, t, ancestor) && Usable(run[i], t, p)
    ensures ancestor < |run[i].tokens| && Grants(run[i].tokens[ancestor].role, p)
  {
    RunKeepsInv(run, i, challengeOf);
    ChainNeverRises(run[i], challengeOf, t, ancestor);
    hide Inv, Grants, LowerRole, MintedFrom;
    LowerRoleIsMeet(run[i].tokens[t].role, run[i].roles[run[i].tokens[t].user], p);
    HigherRolesGrantMore(run[i].tokens[ancestor].role, run[i].tokens[t].role, p);
  }

  /** A code yields at most one token, and only if it was claimed before it expired with a matching verifier. */
  lemma OneTokenPerCode(run: seq<State>, i: nat, challengeOf: string -> string, t: TokenId, u: TokenId, c: CodeId)
    requires IsRun(run, challengeOf) && i < |run|
    requires t < |run[i].tokens| && run[i].tokens[t].origin.ByCode? && run[i].tokens[t].origin.code == c
    requires u < |run[i].tokens| && run[i].tokens[u].origin.ByCode? && run[i].tokens[u].origin.code == c
    ensures t == u && c < |run[i].codes|
    ensures run[i].codes[c].usedAt.Some? && run[i].codes[c].usedAt.value < run[i].codes[c].expiresAt
    ensures challengeOf(run[i].tokens[t].origin.verifier) == run[i].codes[c].challenge
    ensures run[i].tokens[t].role == run[i].codes[c].role && run[i].tokens[t].user == run[i].codes[c].user
  {
    RunKeepsInv(run, i, challengeOf);
    assert CodeFits(run[i], run[i].tokens[t], challengeOf);
  }

  // ---- Over time ----

  /** Rows never change but for being revoked, which is for ever. */
  predicate RowsStay(a: State, b: State) {
    && |a.tokens| <= |b.tokens|
    && (forall k :: 0 <= k < |a.tokens| ==>
          b.tokens[k] == a.tokens[k].(revoked := b.tokens[k].revoked) && (a.tokens[k].revoked ==> b.tokens[k].revoked))
    && |a.codes| <= |b.codes|
    && (forall c :: 0 <= c < |a.codes| ==>
          && b.codes[c] == a.codes[c].(usedAt := b.codes[c].usedAt)
          && (a.codes[c].usedAt.Some? ==> b.codes[c].usedAt == a.codes[c].usedAt))
  }

  lemma StepKeepsRows(s: State, step: Step, challengeOf: string -> string)
    ensures RowsStay(s, Next(s, step, challengeOf))
  {
    hide Active, MayGrant, Granted, Rank, ScopesInclude;
  }

  lemma {:induction false} RunKeepsRows(run: seq<State>, i: nat, j: nat, challengeOf: string -> string)
    requires IsRun(run, challengeOf) && i <= j < |run|
    ensures RowsStay(run[i], run[j])
    decreases j
  {
    hide Next;
    if i == j {
    } else {
      RunKeepsRows(run, i, j - 1, challengeOf);
      assert CanFollow(run[j - 1], run[j], challengeOf);
      var step :| run[j] == Next(run[j - 1], step, challengeOf);
      StepKeepsRows(run[j - 1], step, challengeOf);
    }
  }

  /** A promotion after the mint adds nothing: whatever the token may do later, its first row already allowed. */
  lemma PromotionDoesNotReachBack(run: seq<State>, i: nat, j: nat, challengeOf: string -> string, t: TokenId,
                                  p: Permission)
    requires IsRun(run, challengeOf) && i <= j < |run| && t < |run[i].tokens| && Usable(run[j], t, p)
    ensures !run[i].tokens[t].revoked && p in run[i].tokens[t].scopes && Grants(run[i].tokens[t].role, p)
  {
    RunKeepsRows(run, i, j, challengeOf);
    UsableIsTheMeet(run, j, challengeOf, t, p);
  }

  /** A code that appears was waiting for its insert, with the user and the role it now has. */
  lemma NewCodeWasAsked(s: State, step: Step, challengeOf: string -> string, c: CodeId)
    requires |s.codes| <= c < |Next(s, step, challengeOf).codes|
    ensures var code := Next(s, step, challengeOf).codes[c];
            && code.expiresAt <= Next(s, step, challengeOf).now + 60
            && exists r :: r in s.asking && r.user == code.user && r.role == code.role && r.challenge == code.challenge
  {
    hide Active, MayMint, Granted, Rank, LoginToken, Child;
    assert s.asking[step.k] in s.asking;
  }

  lemma NewRequestReadRole(s: State, step: Step, challengeOf: string -> string, r: CodeRequest)
    requires r in Next(s, step, challengeOf).asking && r !in s.asking
    ensures r.user in s.roles && r.role == s.roles[r.user]
  {
    hide Active, MayMint, Granted, Rank, LoginToken, Child;
  }

  /** A request that waits read its user's role in an earlier state. */
  lemma {:induction false} AskedAt(run: seq<State>, i: nat, challengeOf: string -> string, r: CodeRequest)
    returns (a: nat)
    requires IsRun(run, challengeOf) && i < |run| && r in run[i].asking
    ensures a < i && r.user in run[a].roles && r.role == run[a].roles[r.user]
    decreases i
  {
    hide Next;
    assert CanFollow(run[i - 1], run[i], challengeOf);
    var step :| run[i] == Next(run[i - 1], step, challengeOf);
    if r in run[i - 1].asking {
      a := AskedAt(run, i - 1, challengeOf, r);
    } else {
      a := i - 1;
      NewRequestReadRole(run[i - 1], step, challengeOf, r);
    }
  }

  /** A code carries its user's role of the moment the request read it, before it was issued at k, and is claimed
      within 60 seconds of being issued or never. */
  lemma {:induction false} CodesLastAMinute(run: seq<State>, i: nat, challengeOf: string -> string, c: CodeId)
    returns (a: nat, k: nat)
    requires IsRun(run, challengeOf) && i < |run| && c < |run[i].codes|
    ensures a < k <= i && |run[k - 1].codes| <= c < |run[k].codes|
    ensures var code := run[i].codes[c];
            && code.user in run[a].roles && code.role == run[a].roles[code.user]
            && code.expiresAt <= run[k].now + 60
            && (code.usedAt.Some? ==> code.usedAt.value < run[k].now + 60)
    decreases i
  {
    RunKeepsInv(run, i, challengeOf);
    hide Next, MintInv;
    assert CanFollow(run[i - 1], run[i], challengeOf);
    var step :| run[i] == Next(run[i - 1], step, challengeOf);
    if c < |run[i - 1].codes| {
      a, k := CodesLastAMinute(run, i - 1, challengeOf, c);
      StepKeepsRows(run[i - 1], step, challengeOf);
    } else {
      k := i;
      NewCodeWasAsked(run[i - 1], step, challengeOf, c);
      var code := run[i].codes[c];
      var r :| r in run[i - 1].asking && r.user == code.user && r.role == code.role && r.challenge == code.challenge;
      a := AskedAt(run, i - 1, challengeOf, r);
    }
  }

  // ---- Parent and child ----

  /** At any time, a token minted with another may do no more than that one exactly when whatever of its scopes
      their user's role grants is among the other's scopes. */
  lemma WithinParentIff(run: seq<State>, i: nat, challengeOf: string -> string, t: TokenId)
    requires IsRun(run, challengeOf) && i < |run| && t < |run[i].tokens| && run[i].tokens[t].origin.ByToken?
    requires Active(run[i], t) && Active(run[i], run[i].tokens[t].origin.parent)
    ensures var s := run[i]; var token := s.tokens[t]; var parent := token.origin.parent;
            (forall p :: Usable(s, t, p) ==> Usable(s, parent, p))
            <==> forall p :: p in token.scopes && Grants(s.roles[token.user], p) ==> p in s.tokens[parent].scopes
  {
    var s := run[i];
    var token := s.tokens[t];
    var parent := token.origin.parent;
    RunKeepsInv(run, i, challengeOf);
    assert ChainFits(s.tokens[..t], token) && s.tokens[parent].user == token.user;
    hide Inv, Grants, LowerRole, Active, ChainFits;
    forall p ensures Usable(s, t, p) <==> p in token.scopes && Grants(s.roles[token.user], p) {
      UsableIsTheMeet(run, i, challengeOf, t, p);
    }
    forall p ensures Usable(s, parent, p) <==> p in s.tokens[parent].scopes && Grants(s.roles[token.user], p) {
      UsableIsTheMeet(run, i, challengeOf, parent, p);
    }
  }

  /** When a token mints another and the row goes in at once, the new one may do no more than its parent exactly
      when the requested scopes are among the parent's, or it expires at once. */
  lemma MintsWithinParentIff(s: State, challengeOf: string -> string, t: TokenId, name: string, scopes: seq<Permission>,
                             expiresAt: Option<nat>)
    requires Active(s, t)
    requires MayMint(EffectiveRole(s, t), Some(s.tokens[t].scopes), name, Requested(scopes))
    ensures var asked := Next(s, AskWithToken(t, name, scopes, expiresAt), challengeOf);
            var after := Next(asked, Insert(|s.minting|, true), challengeOf);
            var child := |s.tokens|;
            && after.tokens == s.tokens + [Child(s, t, name, scopes, expiresAt)]
            && ((forall p :: Usable(after, child, p) ==> Usable(after, t, p))
                <==> (expiresAt.Some? && expiresAt.value <= s.now)
                     || forall p :: p in Requested(scopes) ==> p in s.tokens[t].scopes)
  {
    var row := Child(s, t, name, scopes, expiresAt);
    var asked := Next(s, AskWithToken(t, name, scopes, expiresAt), challengeOf);
    assert asked.minting == s.minting + [row];
    var after := Next(asked, Insert(|s.minting|, true), challengeOf);
    assert after.tokens == s.tokens + [row];
    hide Next, Grants;
    var role := EffectiveRole(s, t);
    forall p ensures Grants(LowerRole(role, s.roles[row.user]), p) <==> Grants(role, p) {
      LowerRoleIsMeet(role, s.roles[row.user], p);
      LowerRoleIsMeet(s.tokens[t].role, s.roles[row.user], p);
    }
    hide LowerRole, Rank, IsAtLeast;
    forall p ensures Usable(after, |s.tokens|, p) <==> Active(after, |s.tokens|) && p in row.scopes {
    }
    forall p | Grants(role, p) ensures Usable(after, t, p) <==> p in s.tokens[t].scopes {
    }
  }

  lemma ParentMinted(challengeOf: string -> string) returns (run: seq<State>)
    ensures IsRun(run, challengeOf) && |run| == 4
    ensures var a := Token(0, "a", [ManageTokens], Developer, None, false, ByUser);
            run[3] == State(0, map[0 := Developer], [a], [], [], [], map[])
  {
    var s0 := Initial();
    var s1 := Next(s0, SetRole(0, Developer), challengeOf);
    var s2 := Next(s1, AskAsUser(0, "a", [ManageTokens], None), challengeOf);
    var s3 := Next(s2, Insert(0, true), challengeOf);
    run := [s0, s1, s2, s3];
    assert RolePermissions(Developer)[2] == ManageTokens;
    assert s2.minting == [Token(0, "a", [ManageTokens], Developer, None, false, ByUser)];
    assert CanFollow(s0, s1, challengeOf) && CanFollow(s1, s2, challengeOf) && CanFollow(s2, s3, challengeOf);
  }

  /** A run in which the requested scopes are not among the parent's: a token that carries only the management of
      tokens, minted by a developer, mints one that may write secrets. */
  lemma ChildBeyondParent(challengeOf: string -> string) returns (run: seq<State>)
    ensures IsRun(run, challengeOf)
    ensures var s := run[|run| - 1];
            Usable(s, 1, WriteSecrets) && !Usable(s, 0, WriteSecrets) && s.tokens[1].origin == ByToken(0)
  {
    run := ParentMinted(challengeOf);
    var s3 := run[3];
    var s4 := Next(s3, AskWithToken(0, "b", [WriteSecrets], None), challengeOf);
    var s5 := Next(s4, Insert(0, true), challengeOf);
    assert RolePermissions(Developer)[1] == WriteSecrets && RolePermissions(Developer)[2] == ManageTokens;
    assert s4.minting == [Token(0, "b", [WriteSecrets], Developer, None, false, ByToken(0))];
    assert s5.tokens == s3.tokens + s4.minting;
    assert CanFollow(s3, s4, challengeOf) && CanFollow(s4, s5, challengeOf);
    run := run + [s4, s5];
  }
}
