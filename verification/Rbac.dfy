/** Roles, permissions and token scopes. A scope names a permission; any other name is Unknown. */
module Rbac {
  import opened Text

  datatype Role = Owner | Admin | Developer | Reader | NoSuchRole(name: string)

  datatype Permission =
    | ReadSecrets | WriteSecrets | DeleteSecrets | ViewAudit | ManageMembers | ManageBilling | ManageTokens
    | Unknown(name: string)

  function RolePermissions(role: Role): seq<Permission> {
    match role
    case Owner => [ReadSecrets, WriteSecrets, DeleteSecrets, ViewAudit, ManageMembers, ManageBilling, ManageTokens]
    case Admin => [ReadSecrets, WriteSecrets, DeleteSecrets, ViewAudit, ManageMembers, ManageTokens]
    case Developer => [ReadSecrets, WriteSecrets, ManageTokens]
    case Reader => [ReadSecrets]
    case NoSuchRole(_) => []
  }

  const ALL_SCOPES: seq<Permission> :=
    [ReadSecrets, WriteSecrets, DeleteSecrets, ViewAudit, ManageTokens, ManageMembers, ManageBilling]

  predicate Grants(role: Role, perm: Permission) {
    perm in RolePermissions(role)
  }

  /** No scopes at all is a user's own session; an empty list is a token that was granted nothing. */
  type Scopes = Option<seq<Permission>>

  predicate ScopesInclude(scopes: Scopes, perm: Permission) {
    scopes.Some? ==> perm in scopes.value
  }

  predicate Authorized(role: Role, scopes: Scopes, perm: Permission) {
    Grants(role, perm) && ScopesInclude(scopes, perm)
  }

  function Rank(role: Role): nat {
    match role
    case Reader => 1
    case Developer => 2
    case Admin => 3
    case Owner => 4
    case NoSuchRole(_) => 0
  }

  predicate IsAtLeast(role: Role, minRole: Role) {
    Rank(role) >= Rank(minRole)
  }

  function LowerRole(a: Role, b: Role): Role {
    if IsAtLeast(a, b) then b else a
  }

  // ---- The loops ----

  method HasPermission(role: Role, perm: Permission) returns (has: bool)
    ensures has <==> Grants(role, perm)
  {
    var perms := RolePermissions(role);
    for i := 0 to |perms|
      invariant perm !in perms[..i]
    {
      if perms[i] == perm {
        return true;
      }
    }
    has := false;
  }

  method ValidScope(s: Permission) returns (valid: bool)
    ensures valid <==> !s.Unknown?
  {
    for i := 0 to |ALL_SCOPES|
      invariant s !in ALL_SCOPES[..i]
    {
      if ALL_SCOPES[i] == s {
        return true;
      }
    }
    EveryScopeListed(s);
    valid := false;
  }

  lemma EveryScopeListed(s: Permission)
    ensures s in ALL_SCOPES <==> !s.Unknown?
  {
    assert ALL_SCOPES[0] == ReadSecrets && ALL_SCOPES[1] == WriteSecrets && ALL_SCOPES[2] == DeleteSecrets;
    assert ALL_SCOPES[3] == ViewAudit && ALL_SCOPES[4] == ManageTokens && ALL_SCOPES[5] == ManageMembers;
    assert ALL_SCOPES[6] == ManageBilling;
  }

  method ScopesAllow(scopes: Scopes, perm: Permission) returns (allows: bool)
    ensures allows <==> ScopesInclude(scopes, perm)
    ensures allows <==> scopes.None? || perm in scopes.value
  {
    if scopes.None? {
      return true;
    }
    for i := 0 to |scopes.value|
      invariant perm !in scopes.value[..i]
    {
      if scopes.value[i] == perm {
        return true;
      }
    }
    allows := false;
  }

  method Allows(role: Role, scopes: Scopes, perm: Permission) returns (allows: bool)
    ensures allows <==> Authorized(role, scopes, perm)
  {
    allows := HasPermission(role, perm);
    if allows {
      allows := ScopesAllow(scopes, perm);
    }
  }

  function Granted(role: Role, perms: seq<Permission>): seq<Permission> {
    if perms == [] then []
    else
      var n := |perms| - 1;
      Granted(role, perms[..n]) + if Grants(role, perms[n]) then [perms[n]] else []
  }

  /** Every scope the role may be granted, in the order of the list of all scopes. */
  method ScopesForRole(role: Role) returns (scopes: seq<Permission>)
    ensures scopes == Granted(role, ALL_SCOPES)
  {
    scopes := [];
    for i := 0 to |ALL_SCOPES|
      invariant scopes == Granted(role, ALL_SCOPES[..i])
    {
      assert ALL_SCOPES[..i + 1][..i] == ALL_SCOPES[..i];
      var has := HasPermission(role, ALL_SCOPES[i]);
      if has {
        scopes := scopes + [ALL_SCOPES[i]];
      }
    }
    assert ALL_SCOPES[..|ALL_SCOPES|] == ALL_SCOPES;
  }

  lemma {:induction false} GrantedMembers(role: Role, perms: seq<Permission>, p: Permission)
    ensures p in Granted(role, perms) <==> p in perms && Grants(role, p)
  {
    hide Grants;
    if perms == [] {
    } else {
      var n := |perms| - 1;
      GrantedMembers(role, perms[..n], p);
      assert perms == perms[..n] + [perms[n]];
    }
  }

  /** A token minted for a role carries exactly what the role allows: no less and no more. */
  lemma ScopesForRoleAreItsPermissions(role: Role, p: Permission)
    ensures p in Granted(role, ALL_SCOPES) <==> Grants(role, p)
  {
    GrantedMembers(role, ALL_SCOPES, p);
    EveryScopeListed(p);
  }

  // ---- The order of roles ----

  /** The permission lists are nested along the ranks, for unknown roles too. */
  lemma HigherRolesGrantMore(role: Role, minRole: Role, p: Permission)
    requires IsAtLeast(role, minRole) && Grants(minRole, p)
    ensures Grants(role, p)
  {
  }

  /** The lower of two roles grants exactly what both grant. */
  lemma LowerRoleIsMeet(a: Role, b: Role, p: Permission)
    ensures Grants(LowerRole(a, b), p) <==> Grants(a, p) && Grants(b, p)
  {
    if IsAtLeast(a, b) {
      if Grants(b, p) {
        HigherRolesGrantMore(a, b, p);
      }
    } else if Grants(a, p) {
      HigherRolesGrantMore(b, a, p);
    }
  }

  // ---- Protected environments ----

  predicate CanReadSecret(role: Role, scopes: Scopes, isProtected: bool) {
    ScopesInclude(scopes, ReadSecrets) && if isProtected then role in {Owner, Admin} else Grants(role, ReadSecrets)
  }

  predicate CanWriteSecret(role: Role, scopes: Scopes, isProtected: bool) {
    ScopesInclude(scopes, WriteSecrets) && if isProtected then role in {Owner, Admin} else Grants(role, WriteSecrets)
  }

  predicate CanDeleteSecret(role: Role, scopes: Scopes) {
    ScopesInclude(scopes, DeleteSecrets) && role in {Owner, Admin}
  }

  /** On secrets too a token does what both roles may do: neither role alone decides. */
  lemma SecretAccessIsMeet(a: Role, b: Role, scopes: Scopes, isProtected: bool)
    ensures CanReadSecret(LowerRole(a, b), scopes, isProtected)
       <==> CanReadSecret(a, scopes, isProtected) && CanReadSecret(b, scopes, isProtected)
    ensures CanWriteSecret(LowerRole(a, b), scopes, isProtected)
       <==> CanWriteSecret(a, scopes, isProtected) && CanWriteSecret(b, scopes, isProtected)
    ensures CanDeleteSecret(LowerRole(a, b), scopes) <==> CanDeleteSecret(a, scopes) && CanDeleteSecret(b, scopes)
    ensures CanReadSecret(a, scopes, true) <==> IsAtLeast(a, Admin) && Authorized(a, scopes, ReadSecrets)
    ensures CanWriteSecret(a, scopes, true) <==> IsAtLeast(a, Admin) && Authorized(a, scopes, WriteSecrets)
    ensures CanDeleteSecret(a, scopes) <==> IsAtLeast(a, Admin) && Authorized(a, scopes, DeleteSecrets)
  {
    LowerRoleIsMeet(a, b, ReadSecrets);
    LowerRoleIsMeet(a, b, WriteSecrets);
  }

  /** What a protected environment lets through, an ordinary one does too; and nothing gets past the scopes. */
  lemma ProtectionOnlyRestricts(role: Role, scopes: Scopes)
    ensures CanReadSecret(role, scopes, true) ==> CanReadSecret(role, scopes, false)
    ensures CanWriteSecret(role, scopes, true) ==> CanWriteSecret(role, scopes, false)
    ensures CanReadSecret(role, scopes, false) <==> Authorized(role, scopes, ReadSecrets)
    ensures CanWriteSecret(role, scopes, false) <==> Authorized(role, scopes, WriteSecrets)
    ensures CanDeleteSecret(role, scopes) <==> Authorized(role, scopes, DeleteSecrets)
  {
  }
}
