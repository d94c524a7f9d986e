/** Admin-only routes (routers/admin.py): listing users and changing a user's role. */
module AdminRouter {
  import opened Outcomes
  import opened Models
  import Auth
  import Role
  import AdminUserCrud

  const UserNotFound: string := "User not found"
  const InvalidRole: string := "Invalid role"
  /** The roles an admin may assign; "guest" is not among them. */
  const AssignableRoles: seq<string> := ["user", "admin"]

  /** list_users: every user, for an admin principal only. */
  function ListUsers(codec: Auth.Codec, users: seq<User>, revoked: seq<RevokedToken>, token: string, now: int)
    : (r: Result<seq<User>>)
    ensures r.Ok? <==> Role.RequireRole("admin", codec, users, revoked, token, now).Ok?
    ensures r.Ok? ==> r.value == users
    ensures r.Err? ==> r.error == Role.RequireRole("admin", codec, users, revoked, token, now).error
    ensures r.Err? ==> r.error.Unauthorized? || r.error.Forbidden?
  {
    match Role.RequireRole("admin", codec, users, revoked, token, now)
    case Err(e) => Err(e)
    case Ok(_) => Ok(AdminUserCrud.GetAllUsers(users))
  }

  /**
   * change_user_role: after the admin check, a missing target is 404, and only then is the new
   * role validated (400 unless "user" or "admin"). On success exactly the target's role changes.
   */
  method ChangeUserRole(db: Database, codec: Auth.Codec, token: string, now: int, userId: int, newRole: string)
    returns (r: Result<User>)
    requires db.Valid()
    modifies db
    ensures db.Valid()
    ensures db.categories == old(db.categories) && db.operations == old(db.operations) && db.revoked == old(db.revoked)
    ensures Role.RequireRole("admin", codec, old(db.users), old(db.revoked), token, now).Err? ==>
      r == Err(Role.RequireRole("admin", codec, old(db.users), old(db.revoked), token, now).error)
    ensures (Role.RequireRole("admin", codec, old(db.users), old(db.revoked), token, now).Ok? &&
             AdminUserCrud.GetUserById(old(db.users), userId).None?) ==> r == Err(NotFound(UserNotFound))
    ensures (Role.RequireRole("admin", codec, old(db.users), old(db.revoked), token, now).Ok? &&
             AdminUserCrud.GetUserById(old(db.users), userId).Some? &&
             newRole !in AssignableRoles) ==> r == Err(BadRequest(InvalidRole))
    ensures (Role.RequireRole("admin", codec, old(db.users), old(db.revoked), token, now).Ok? &&
             AdminUserCrud.GetUserById(old(db.users), userId).Some? &&
             newRole in AssignableRoles) ==> r.Ok?
    ensures r.Err? ==> db.users == old(db.users)
    ensures r.Ok? ==> newRole in AssignableRoles
    ensures r.Ok? ==> r.value == AdminUserCrud.GetUserById(old(db.users), userId).value.(role := Some(newRole))
    ensures r.Ok? ==> |db.users| == |old(db.users)| && forall k :: 0 <= k < |db.users| ==>
      db.users[k] == if old(db.users)[k].id == userId then r.value else old(db.users)[k]
    ensures Role.NoAdmins(old(db.users)) ==> r.Err?
  {
    var admin := Role.RequireRole("admin", codec, db.users, db.revoked, token, now);
    if admin.Err? {
      r := Err(admin.error);
      return;
    }
    var user := AdminUserCrud.GetUserById(db.users, userId);
    if user.None? {
      r := Err(NotFound(UserNotFound));
      return;
    }
    if newRole !in AssignableRoles {
      r := Err(BadRequest(InvalidRole));
      return;
    }
    var updated := AdminUserCrud.UpdateUserRole(db, user.value, newRole);
    r := Ok(updated);
  }

  /** Registering a user keeps a table without admins without admins. */
  lemma RegistrationAddsNoAdmin(users: seq<User>, u: User)
    requires Role.NoAdmins(users) && u.role.None?
    ensures Role.NoAdmins(users + [u])
  {
  }
}
