/** Role-based access (utils/role.py): a rank table over guest < user < admin. */
module Role {
  import opened Outcomes
  import opened Models
  import Auth

  const InsufficientPrivileges: string := "Insufficient privileges"

  /** The role hierarchy: admin > user > guest. */
  const Hierarchy: map<string, nat> := map["guest" := 0, "user" := 1, "admin" := 2]

  /** `role_hierarchy.get(role, 0)`: a known role's rank, 0 for anything else. */
  function Rank(role: string): (r: nat)
    ensures r <= 2
    ensures r == 2 <==> role == "admin"
    ensures r == 1 <==> role == "user"
  {
    if role in Hierarchy then Hierarchy[role] else 0
  }

  /** The principal's role, "user" when the instance carries no role attribute. */
  function PrincipalRole(u: User): (role: string)
    ensures u.role.None? ==> role == "user"
    ensures u.role.Some? ==> role == u.role.value
  {
    u.role.GetOr("user")
  }

  /** The inner dependency of role_required: admit the principal or refuse with 403. */
  function RoleRequired(required: string, current: User): (r: Result<User>)
    ensures r.Ok? <==> Rank(PrincipalRole(current)) >= Rank(required)
    ensures r.Ok? ==> r.value == current
    ensures r.Err? ==> r.error == Forbidden(InsufficientPrivileges)
  {
    if Rank(PrincipalRole(current)) < Rank(required) then Err(Forbidden(InsufficientPrivileges))
    else Ok(current)
  }

  /**
   * role_required(required) as a route dependency: the role check runs only on the principal
   * that authentication produced; an authentication failure is passed through untouched.
   */
  function RequireRole(required: string, codec: Auth.Codec, users: seq<User>, revoked: seq<RevokedToken>,
                       token: string, now: int): (r: Result<User>)
    ensures Auth.GetCurrentUser(codec, users, revoked, token, now).Err? ==>
      r == Auth.GetCurrentUser(codec, users, revoked, token, now)
    ensures r.Ok? ==>
      && r == Auth.GetCurrentUser(codec, users, revoked, token, now)
      && Rank(PrincipalRole(r.value)) >= Rank(required)
    ensures Auth.GetCurrentUser(codec, users, revoked, token, now).Ok? ==>
      r == RoleRequired(required, Auth.GetCurrentUser(codec, users, revoked, token, now).value)
    ensures Auth.GetCurrentUser(codec, users, revoked, token, now).Ok? && r.Err? ==>
      r.error == Forbidden(InsufficientPrivileges)
  {
    match Auth.GetCurrentUser(codec, users, revoked, token, now)
    case Err(e) => Err(e)
    case Ok(current) => RoleRequired(required, current)
  }

  /** A principal admitted for one requirement is admitted for every requirement ranked no higher. */
  lemma AdmissionIsMonotone(current: User, required: string, lower: string)
    requires Rank(lower) <= Rank(required)
    requires RoleRequired(required, current).Ok?
    ensures RoleRequired(lower, current) == Ok(current)
  {
  }

  /** A principal with no role attribute is a "user": admitted for "user", refused for "admin". */
  lemma MissingRoleActsAsUser(current: User, required: string)
    requires current.role.None?
    ensures RoleRequired(required, current).Ok? == RoleRequired(required, current.(role := Some("user"))).Ok?
    ensures RoleRequired("user", current).Ok? && RoleRequired("admin", current).Err?
  {
  }

  /**
   * An unrecognised role ranks like "guest", on either side: the principal is admitted only for
   * requirements of rank 0, and an unrecognised requirement admits every principal.
   */
  lemma UnknownRolesRankZero(current: User, required: string, unknown: string)
    requires unknown !in Hierarchy
    ensures RoleRequired(required, current.(role := Some(unknown))).Ok? ==
            RoleRequired(required, current.(role := Some("guest"))).Ok?
    ensures RoleRequired(unknown, current) == Ok(current)
  {
  }

  /** No stored user ranks as admin. Registration never sets a role, so every table it builds is such. */
  ghost predicate NoAdmins(users: seq<User>)
  {
    forall u :: u in users ==> Rank(PrincipalRole(u)) < 2
  }

  /** When no stored user ranks as admin, no token gets through an admin-only route. */
  lemma AdminRoutesClosedWithoutAdmins(codec: Auth.Codec, users: seq<User>, revoked: seq<RevokedToken>,
                                       token: string, now: int)
    requires NoAdmins(users)
    ensures RequireRole("admin", codec, users, revoked, token, now).Err?
  {
  }
}
