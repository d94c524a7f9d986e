/** User persistence (crud/user.py): lookup by email and insertion. */
module UserCrud {
  import opened Outcomes
  import opened Query
  import opened Models

  /** The unique column that rejects a second row with the same email. */
  const EmailColumn: string := "users.email"

  /** get_user: the user registered under `email`, or None when there is none. */
  function GetUser(users: seq<User>, email: string): (r: Option<User>)
    ensures r.Some? ==> r.value in users && r.value.email == email
    ensures r.None? <==> forall u :: u in users ==> u.email != email
  {
    First(users, (u: User) => u.email == email)
  }

  /**
   * create_user: adds one row with a fresh id holding exactly the given email, password hash
   * and currency, and returns it. Existing rows are untouched; a taken email makes the commit
   * fail on the unique column and nothing is stored.
   */
  method CreateUser(db: Database, email: string, currency: string, hashed: string) returns (r: Result<User>)
    requires db.Valid()
    modifies db
    ensures db.Valid()
    ensures db.categories == old(db.categories) && db.operations == old(db.operations) && db.revoked == old(db.revoked)
    ensures r.Err? <==> exists u :: u in old(db.users) && u.email == email
    ensures r.Err? ==> r.error == IntegrityError(EmailColumn) && db.users == old(db.users)
    ensures r.Ok? ==> db.users == old(db.users) + [r.value]
    ensures r.Ok? ==> && r.value.email == email && r.value.hashedPassword == hashed
                      && r.value.currency == currency && r.value.role.None?
    ensures r.Ok? ==> forall u :: u in old(db.users) ==> u.id < r.value.id
  {
    if GetUser(db.users, email).Some? {
      r := Err(IntegrityError(EmailColumn));
      return;
    }
    var row := User(FreshId(db.users, UserId), email, hashed, currency, None);
    UniqueAppend(db.users, row, UserId);
    UniqueAppend(db.users, row, UserEmail);
    db.users := db.users + [row];
    r := Ok(row);
  }
}
