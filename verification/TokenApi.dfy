/** The token and code handlers as they change the tables, each request on its own. */
module TokenApi {
  import opened Text
  import opened Rbac
  import opened TokenFlow

  class Backend {
    var now: nat
    var roles: map<UserId, Role>
    var tokens: seq<Token>
    var codes: seq<Code>

    constructor ()
      ensures Contents() == Initial()
    {
      now, roles, tokens, codes := 0, map[], [], [];
    }

    /** Between requests nothing is in flight. */
    function Contents(): State
      reads this
    {
      State(now, roles, tokens, [], [], codes, map[])
    }

    /** The checks and the insert of the token handler, for a request that runs under this role and these scopes. */
    method CreateAPIToken(user: UserId, role: Role, held: Scopes, name: string, scopes: seq<Permission>,
                          expiresAt: Option<nat>, origin: Origin)
      returns (id: Option<TokenId>)
      modifies this`tokens
      ensures id.Some? <==> ScopesInclude(held, ManageTokens) && name != "" && MayGrant(role, Requested(scopes))
      ensures MayGrant(role, Requested(scopes)) <==>
              forall p :: p in (if scopes == [] then [ReadSecrets] else scopes) ==> !p.Unknown? && Grants(role, p)
      ensures id.Some? ==>
                id.value == |old(tokens)|
                && tokens == old(tokens) + [Token(user, name, Requested(scopes), role, expiresAt, false, origin)]
                && tokens[id.value].scopes == if scopes == [] then [ReadSecrets] else scopes
      ensures id.None? ==> tokens == old(tokens)
    {
      var carries := ScopesAllow(held, ManageTokens);
      if !carries {
        return None;
      }
      if name == "" {
        return None;
      }
      var requested := scopes;
      if |requested| == 0 {
        requested := [ReadSecrets];
      }
      for i := 0 to |requested|
        invariant MayGrant(role, requested[..i])
        invariant tokens == old(tokens)
      {
        var valid := ValidScope(requested[i]);
        if !valid {
          return None;
        }
        var has := HasPermission(role, requested[i]);
        if !has {
          return None;
        }
        assert requested[..i + 1] == requested[..i] + [requested[i]];
      }
      assert requested[..|requested|] == requested;
      tokens := tokens + [Token(user, name, requested, role, expiresAt, false, origin)];
      id := Some(|tokens| - 1);
    }

    method RevokeAPIToken(t: TokenId, u: UserId)
      modifies this`tokens
      ensures forall challengeOf :: Contents() == Next(old(Contents()), Revoke(t, u), challengeOf)
      ensures |tokens| == |old(tokens)| && forall k :: 0 <= k < |tokens| ==>
              tokens[k] == old(tokens)[k].(revoked := old(tokens)[k].revoked || (k == t && old(tokens)[k].user == u))
    {
      if t < |tokens| && tokens[t].user == u {
        tokens := tokens[t := tokens[t].(revoked := true)];
      }
    }

    /** One statement marks the code used and returns it, or finds no open code. */
    method ClaimCLILoginCode(c: CodeId) returns (claimed: Option<Code>)
      modifies this`codes
      ensures claimed.Some? <==> CodeOpen(old(Contents()), c)
      ensures claimed.Some? <==> c < |old(codes)| && old(codes)[c].usedAt.None? && now < old(codes)[c].expiresAt
      ensures claimed.Some? ==>
          claimed.value == old(codes)[c].(usedAt := Some(now)) && codes == old(codes)[c := claimed.value]
      ensures claimed.None? ==> codes == old(codes)
      ensures !CodeOpen(Contents(), c)
    {
      if c >= |codes| || codes[c].usedAt.Some? || codes[c].expiresAt <= now {
        return None;
      }
      codes := codes[c := codes[c].(usedAt := Some(now))];
      claimed := Some(codes[c]);
    }

    /** The exchange. A wrong verifier spends the code too; an empty one is refused before the claim. */
    method CLIAuthToken(c: CodeId, verifier: string, challengeOf: string -> string) returns (id: Option<TokenId>)
      modifies this`tokens, this`codes
      ensures id.Some?
          <==> verifier != "" && CodeOpen(old(Contents()), c) && challengeOf(verifier) == old(codes)[c].challenge
      ensures Contents() == Next(Next(old(Contents()), Claim(c, verifier), challengeOf), Finish(c, true), challengeOf)
      ensures id.Some? ==>
          var code := old(codes)[c];
          |tokens| == |old(tokens)| + 1 && id.value == |old(tokens)|
          && tokens[id.value].user == code.user && tokens[id.value].role == code.role
          && forall p :: p in tokens[id.value].scopes <==> Grants(code.role, p)
      ensures if verifier == "" then Contents() == old(Contents()) else !CodeOpen(Contents(), c)
    {
      if verifier == "" {
        return None;
      }
      ghost var before := Contents();
      var claimed := ClaimCLILoginCode(c);
      ghost var middle := Next(before, Claim(c, verifier), challengeOf);
      if claimed.None? {
        return None;
      }
      assert middle.claimed - {c} == map[] && middle.codes == codes;
      if challengeOf(verifier) != claimed.value.challenge {
        return None;
      }
      var scopes := ScopesForRole(claimed.value.role);
      forall p ensures p in scopes <==> Grants(claimed.value.role, p) {
        ScopesForRoleAreItsPermissions(claimed.value.role, p);
      }
      var code := claimed.value;
      tokens := tokens + [Token(code.user, "CLI Login", scopes, code.role, None, false, ByCode(c, verifier))];
      id := Some(|tokens| - 1);
    }
  }
}
