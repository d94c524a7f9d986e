/** User administration queries (crud/admin_user.py). */
module AdminUserCrud {
  import opened Outcomes
  import opened Query
  import opened Models

  /** get_all_users: the whole users table. */
  function GetAllUsers(users: seq<User>): seq<User>
  {
    users
  }

  /** get_user_by_id: the user with primary key `userId`, or None when there is none. */
  function GetUserById(users: seq<User>, userId: int): (r: Option<User>)
    ensures r.Some? ==> r.value in users && r.value.id == userId
    ensures r.None? <==> forall u :: u in users ==> u.id != userId
  {
    First(users, (u: User) => u.id == userId)
  }

  /**
   * update_user_role: sets the role of the stored `user` and returns it; no other field and
   * no other user changes.
   */
  method UpdateUserRole(db: Database, user: User, newRole: string) returns (r: User)
    requires db.Valid() && user in db.users
    modifies db
    ensures db.Valid()
    ensures db.categories == old(db.categories) && db.operations == old(db.operations) && db.revoked == old(db.revoked)
    ensures r == user.(role := Some(newRole))
    ensures |db.users| == |old(db.users)|
    ensures forall k :: 0 <= k < |db.users| ==>
      db.users[k] == if old(db.users)[k].id == user.id then r else old(db.users)[k]
  {
    var found := FindIndex(db.users, (u: User) => u.id == user.id);
    var i := found.value;
    r := user.(role := Some(newRole));
    SameKeySameRow(db.users, UserId, db.users[i], user);
    forall j | 0 <= j < |db.users| && j != i ensures db.users[j].id != user.id {
      if j < i { assert UserId(db.users[j]) != UserId(db.users[i]); }
      else { assert UserId(db.users[i]) != UserId(db.users[j]); }
    }
    UniqueUpdate(db.users, i, r, UserId);
    UniqueUpdate(db.users, i, r, UserEmail);
    db.users := db.users[i := r];
  }
}
