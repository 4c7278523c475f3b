/** What minting, logging in and revoking do to what may be done with a token. */
module TokenOutcomes {
  import opened Text
  import opened Rbac
  import opened TokenFlow

  /** A revocation by its user ends a token at once; by anyone else, or of any other token, it changes nothing. */
  lemma RevokeEndsOne(s: State, challengeOf: string -> string, t: TokenId, u: UserId, q: TokenId, p: Permission)
    ensures Usable(Next(s, Revoke(t, u), challengeOf), q, p)
       <==> Usable(s, q, p) && !(q == t && s.tokens[t].user == u)
  {
    hide Grants, LowerRole;
  }

  lemma RevokedForGood(run: seq<State>, i: nat, j: nat, challengeOf: string -> string, t: TokenId, u: UserId,
                       p: Permission)
    requires IsRun(run, challengeOf) && i < j < |run| && run[i + 1] == Next(run[i], Revoke(t, u), challengeOf)
    requires t < |run[i].tokens| && run[i].tokens[t].user == u
    ensures !Usable(run[j], t, p)
  {
    RevokeMarks(run[i], challengeOf, t, u);
    hide IsRun, Next, Grants, LowerRole;
    RunKeepsRows(run, i + 1, j, challengeOf);
  }

  lemma RevokeMarks(s: State, challengeOf: string -> string, t: TokenId, u: UserId)
    requires t < |s.tokens| && s.tokens[t].user == u
    ensures var r := Next(s, Revoke(t, u), challengeOf); t < |r.tokens| && r.tokens[t].revoked
  {
  }

  /** Time alone ends a token when its expiry is reached, and no other. */
  lemma ExpiryEndsOne(s: State, challengeOf: string -> string, t: TokenId, p: Permission)
    ensures Usable(Next(s, Tick, challengeOf), t, p)
       <==> Usable(s, t, p) && (s.tokens[t].expiresAt.Some? ==> s.now + 1 < s.tokens[t].expiresAt.value)
  {
    hide Grants, LowerRole;
  }

  /** A user's request for a token gives one that may be used, until it expires, for just what was asked, or for
      reading if nothing was. */
  lemma MintGivesTheRequest(s: State, challengeOf: string -> string, u: UserId, name: string, scopes: seq<Permission>,
                            expiresAt: Option<nat>)
    requires u in s.roles && name != ""
    requires forall p :: p in (if scopes == [] then [ReadSecrets] else scopes) ==> !p.Unknown? && Grants(s.roles[u], p)
    ensures var asked := Next(s, AskAsUser(u, name, scopes, expiresAt), challengeOf);
            var t := Next(asked, Insert(|s.minting|, true), challengeOf);
            && |t.tokens| == |s.tokens| + 1 && t.tokens[..|s.tokens|] == s.tokens && t.minting == s.minting
            && forall p :: Usable(t, |s.tokens|, p) <==>
                 p in (if scopes == [] then [ReadSecrets] else scopes)
                 && (expiresAt.Some? ==> s.now < expiresAt.value)
  {
    var asked := Next(s, AskAsUser(u, name, scopes, expiresAt), challengeOf);
    var row := Token(u, name, if scopes == [] then [ReadSecrets] else scopes, s.roles[u], expiresAt, false, ByUser);
    assert asked.minting == s.minting + [row];
    var t := Next(asked, Insert(|s.minting|, true), challengeOf);
    assert t.tokens == s.tokens + [row] && t.minting == s.minting && t.roles == s.roles;
    hide Next, Grants, Rank;
  }

  /** A login with the verifier of its challenge gives a token for just what the user's role allows. */
  lemma LoginGivesTheRole(s: State, challengeOf: string -> string, u: UserId, verifier: string)
    requires Inv(s, challengeOf) && u in s.roles && verifier != "" && challengeOf(verifier) != ""
    ensures var c := |s.codes|;
            var issued := Next(Next(s, AskCode(u, challengeOf(verifier), "S256"), challengeOf),
                               InsertCode(|s.asking|, s.now, true), challengeOf);
            var t := Next(Next(issued, Claim(c, verifier), challengeOf), Finish(c, true), challengeOf);
            && |t.tokens| == |s.tokens| + 1 && t.tokens[..|s.tokens|] == s.tokens
            && t.tokens[|s.tokens|].user == u && t.tokens[|s.tokens|].role == s.roles[u]
            && forall p :: Usable(t, |s.tokens|, p) <==> Grants(s.roles[u], p)
  {
    var c, role := |s.codes|, s.roles[u];
    var asked := Next(s, AskCode(u, challengeOf(verifier), "S256"), challengeOf);
    assert asked.asking[|s.asking|] == CodeRequest(u, role, challengeOf(verifier), s.now);
    var issued := Next(asked, InsertCode(|s.asking|, s.now, true), challengeOf);
    assert issued.codes == s.codes + [Code(u, role, challengeOf(verifier), s.now + 60, None)];
    LoginFinishes(issued, challengeOf, c, verifier);
    hide Next, Grants, Rank, Inv;
    forall p ensures p in Granted(role, ALL_SCOPES) <==> Grants(role, p) {
      ScopesForRoleAreItsPermissions(role, p);
    }
  }

  /** The claim and the insert of a login whose code is open. */
  lemma LoginFinishes(s: State, challengeOf: string -> string, c: CodeId, verifier: string)
    requires c < |s.codes| && s.codes[c].usedAt.None? && s.now < s.codes[c].expiresAt
    requires verifier != "" && challengeOf(verifier) == s.codes[c].challenge
    ensures var t := Next(Next(s, Claim(c, verifier), challengeOf), Finish(c, true), challengeOf);
            var code := s.codes[c];
            && t.tokens == s.tokens + [Token(code.user, "CLI Login", Granted(code.role, ALL_SCOPES), code.role, None,
                                             false, ByCode(c, verifier))]
            && t.roles == s.roles && t.now == s.now
  {
    hide Granted;
  }

  /** Inserts that fail, and a login with another verifier, leave no token and no code behind. */
  lemma FailuresLeaveNothing(s: State, challengeOf: string -> string, k: nat, stamped: nat, c: CodeId)
    ensures Next(s, Insert(k, false), challengeOf).tokens == s.tokens
    ensures Next(s, InsertCode(k, stamped, false), challengeOf).codes == s.codes
    ensures Next(s, Finish(c, false), challengeOf).tokens == s.tokens
    ensures c in s.claimed && c < |s.codes| && challengeOf(s.claimed[c]) != s.codes[c].challenge ==>
              Next(s, Finish(c, true), challengeOf).tokens == s.tokens
  {
  }

  /** A code is asked for with a challenge, by the one method there is or by leaving it out. */
  lemma CodeIsAskedFor(s: State, challengeOf: string -> string, u: UserId, codeChallenge: string,
                       challengeMethod: string)
    ensures |Next(s, AskCode(u, codeChallenge, challengeMethod), challengeOf).asking|
         == |s.asking| + if u in s.roles && codeChallenge != "" && (challengeMethod == "" || challengeMethod == "S256")
                         then 1 else 0
  {
  }

  // ---- Where a snapshot comes from ----

  /** A code request that was let in is stored as it was, under the user's role at that time, for 60 seconds from the
      handler's reading of the clock. */
  lemma CodeIsStored(s: State, challengeOf: string -> string, k: nat, stamped: nat)
    requires k < |s.asking| && s.asking[k].askedAt <= stamped <= s.now
    ensures var r := s.asking[k];
            var t := Next(s, InsertCode(k, stamped, true), challengeOf);
            && t.codes == s.codes + [Code(r.user, r.role, r.challenge, stamped + 60, None)]
            && t.tokens == s.tokens && (s.now < stamped + 60 <==> CodeOpen(t, |s.codes|))
  {
  }

  /** What a row's role has to do with the state in which its request read it. */
  predicate ReadIn(s: State, row: Token) {
    && row.user in s.roles
    && (row.origin.ByUser? ==> row.role == s.roles[row.user])
    && (row.origin.ByToken? ==>
          row.origin.parent < |s.tokens| && row.role == LowerRole(s.tokens[row.origin.parent].role, s.roles[row.user]))
  }

  lemma NewRowReadRole(s: State, step: Step, challengeOf: string -> string, row: Token)
    requires row in Next(s, step, challengeOf).minting && row !in s.minting
    ensures ReadIn(s, row)
  {
    hide MayMint, LowerRole, LoginToken, Requested;
  }

  lemma {:induction false} MintingReadRole(run: seq<State>, j: nat, challengeOf: string -> string, row: Token)
    returns (i: nat)
    requires IsRun(run, challengeOf) && j < |run| && row in run[j].minting
    ensures i < j && ReadIn(run[i], row)
    decreases j
  {
    hide Next, ReadIn;
    assert CanFollow(run[j - 1], run[j], challengeOf);
    var step :| run[j] == Next(run[j - 1], step, challengeOf);
    if row in run[j - 1].minting {
      i := MintingReadRole(run, j - 1, challengeOf, row);
    } else {
      i := j - 1;
      NewRowReadRole(run[j - 1], step, challengeOf, row);
    }
  }

  lemma NewTokenWasMinting(s: State, step: Step, challengeOf: string -> string, t: TokenId)
    requires |s.tokens| <= t < |Next(s, step, challengeOf).tokens|
    ensures var row := Next(s, step, challengeOf).tokens[t]; row in s.minting || row.origin.ByCode?
  {
    hide MayMint, LowerRole, Child, Requested;
  }

  /** A token minted by its user carries the role the user had when the request was let in; one minted with another
      token, the lower of that role and the other's snapshot. */
  lemma {:induction false} SnapshotWasTheRole(run: seq<State>, j: nat, challengeOf: string -> string, t: TokenId)
    returns (i: nat)
    requires IsRun(run, challengeOf) && j < |run| && t < |run[j].tokens| && !run[j].tokens[t].origin.ByCode?
    ensures i < j && run[j].tokens[t].user in run[i].roles
    ensures var token := run[j].tokens[t]; var role := run[i].roles[token.user];
            match token.origin
            case ByUser => token.role == role
            case ByToken(parent) =>
              parent < |run[i].tokens| && token.role == LowerRole(run[i].tokens[parent].role, role)
            case ByCode(_, _) => false
    decreases j
  {
    hide Next, LowerRole;
    assert CanFollow(run[j - 1], run[j], challengeOf);
    var step :| run[j] == Next(run[j - 1], step, challengeOf);
    if t < |run[j - 1].tokens| {
      StepKeepsRows(run[j - 1], step, challengeOf);
      i := SnapshotWasTheRole(run, j - 1, challengeOf, t);
    } else {
      NewTokenWasMinting(run[j - 1], step, challengeOf, t);
      i := MintingReadRole(run, j - 1, challengeOf, run[j].tokens[t]);
    }
  }
}
