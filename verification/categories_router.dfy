/**
 * Category routes (routers/categories.py). Each runs the authentication gate first; a row that
 * is absent and a row owned by someone else both give the same 404.
 */
module CategoriesRouter {
  import opened Outcomes
  import opened Models
  import Auth
  import CategoryCrud
  import opened Query

  const CategoryNotFound: string := "Category not found"
  const CategoryDeleted: string := "Category deleted"

  /** GET /categories/: the principal's categories, in creation order. */
  function ListCategories(codec: Auth.Codec, users: seq<User>, revoked: seq<RevokedToken>, categories: seq<Category>,
                          token: string, now: int): (r: Result<seq<Category>>)
    ensures var gate := Auth.GetCurrentUser(codec, users, revoked, token, now);
      && (gate.Err? ==> r == Err(gate.error))
      && (gate.Ok? ==> r == Ok(CategoryCrud.GetCategories(categories, gate.value)))
      && (gate.Ok? ==> r.Ok? && forall c :: c in r.value <==> c in categories && c.userId == gate.value.id)
  {
    match Auth.GetCurrentUser(codec, users, revoked, token, now)
    case Err(e) => Err(e)
    case Ok(current) => Ok(CategoryCrud.GetCategories(categories, current))
  }

  /** GET /categories/{id}: the principal's category with that id, else 404. */
  function GetCategory(codec: Auth.Codec, users: seq<User>, revoked: seq<RevokedToken>, categories: seq<Category>,
                       categoryId: int, token: string, now: int): (r: Result<Category>)
    ensures var gate := Auth.GetCurrentUser(codec, users, revoked, token, now);
      && (gate.Err? ==> r == Err(gate.error))
      && (r.Ok? ==> gate.Ok? && r.value in categories && r.value.id == categoryId && r.value.userId == gate.value.id)
      && (gate.Ok? && r.Err? ==> r.error == NotFound(CategoryNotFound))
      && (gate.Ok? ==> (r.Err? <==> forall c :: c in categories ==> !(c.id == categoryId && c.userId == gate.value.id)))
  {
    match Auth.GetCurrentUser(codec, users, revoked, token, now)
    case Err(e) => Err(e)
    case Ok(current) =>
      match CategoryCrud.GetCategory(categories, categoryId, current)
      case None => Err(NotFound(CategoryNotFound))
      case Some(c) => Ok(c)
  }

  /** POST /categories/: stores the payload's name and color, owned by the principal. */
  method CreateCategory(db: Database, codec: Auth.Codec, token: string, now: int, payload: CategoryCrud.CategoryCreate)
    returns (r: Result<Category>)
    requires db.Valid()
    modifies db
    ensures db.Valid()
    ensures db.users == old(db.users) && db.operations == old(db.operations) && db.revoked == old(db.revoked)
    ensures r.Err? ==> db.categories == old(db.categories)
    ensures var gate := Auth.GetCurrentUser(codec, old(db.users), old(db.revoked), token, now);
      && (gate.Err? ==> r == Err(gate.error))
      && (gate.Ok? && (exists c :: c in old(db.categories) && c.name == payload.name) ==>
            r == Err(IntegrityError(CategoryCrud.NameColumn)))
      && (gate.Ok? && !(exists c :: c in old(db.categories) && c.name == payload.name) ==> r.Ok?)
      && (r.Ok? ==> && gate.Ok? && r.value.userId == gate.value.id
                    && r.value.name == payload.name && r.value.color == payload.color
                    && db.categories == old(db.categories) + [r.value])
  {
    var gate := Auth.GetCurrentUser(codec, db.users, db.revoked, token, now);
    if gate.Err? {
      r := Err(gate.error);
      return;
    }
    r := CategoryCrud.CreateCategory(db, payload, gate.value);
  }

  const CategoryExists: string := "Category already exists"

  /**
   * POST /categories/ as the duplicate-name test expects it: a name any category already has is
   * refused with 400 before anything is stored, so the unique column is never violated at commit.
   */
  method CreateCategoryChecked(db: Database, codec: Auth.Codec, token: string, now: int,
                               payload: CategoryCrud.CategoryCreate) returns (r: Result<Category>)
    requires db.Valid()
    modifies db
    ensures db.Valid()
    ensures db.users == old(db.users) && db.operations == old(db.operations) && db.revoked == old(db.revoked)
    ensures r.Err? ==> db.categories == old(db.categories) && !r.error.IntegrityError?
    ensures var gate := Auth.GetCurrentUser(codec, old(db.users), old(db.revoked), token, now);
      && (gate.Err? ==> r == Err(gate.error))
      && (gate.Ok? ==> (r.Err? <==> exists c :: c in old(db.categories) && c.name == payload.name))
      && (gate.Ok? && r.Err? ==> r.error == BadRequest(CategoryExists))
      && (r.Ok? ==> && gate.Ok? && r.value.userId == gate.value.id
                    && r.value.name == payload.name && r.value.color == payload.color
                    && db.categories == old(db.categories) + [r.value])
  {
    var gate := Auth.GetCurrentUser(codec, db.users, db.revoked, token, now);
    if gate.Err? {
      r := Err(gate.error);
      return;
    }
    if exists c :: c in db.categories && c.name == payload.name {
      r := Err(BadRequest(CategoryExists));
      return;
    }
    r := CategoryCrud.CreateCategory(db, payload, gate.value);
  }

  /**
   * The duplicate-category test: after one create of a name succeeds, creating it again through
   * the handler as written fails at commit with the unique column's error, where the checked
   * handler answers 400; neither stores a second row.
   */
  method CreateDuplicate(db: Database, codec: Auth.Codec, token: string, now: int, payload: CategoryCrud.CategoryCreate)
    returns (first: Result<Category>, second: Result<Category>, checked: Result<Category>)
    requires db.Valid()
    modifies db
    ensures db.Valid()
    ensures first.Ok? ==> && second == Err(IntegrityError(CategoryCrud.NameColumn))
                          && checked == Err(BadRequest(CategoryExists))
                          && db.categories == old(db.categories) + [first.value]
  {
    first := CreateCategory(db, codec, token, now, payload);
    second := CreateCategory(db, codec, token, now, payload);
    checked := CreateCategoryChecked(db, codec, token, now, payload);
  }

  /**
   * PUT /categories/{id}: 404 unless the principal owns that id, with nothing changed; otherwise
   * name and color become the payload's and every other row stays as it was.
   */
  method UpdateCategory(db: Database, codec: Auth.Codec, token: string, now: int, categoryId: int,
                        updated: CategoryCrud.CategoryCreate) returns (r: Result<Category>)
    requires db.Valid()
    modifies db
    ensures db.Valid()
    ensures db.users == old(db.users) && db.operations == old(db.operations) && db.revoked == old(db.revoked)
    ensures r.Err? ==> db.categories == old(db.categories)
    ensures var gate := Auth.GetCurrentUser(codec, old(db.users), old(db.revoked), token, now);
      && (gate.Err? ==> r == Err(gate.error))
      && (gate.Ok? && CategoryCrud.GetCategory(old(db.categories), categoryId, gate.value).None? ==>
            r == Err(NotFound(CategoryNotFound)))
      && (r.Ok? ==> && gate.Ok? && CategoryCrud.GetCategory(old(db.categories), categoryId, gate.value).Some?
                    && r.value == CategoryCrud.GetCategory(old(db.categories), categoryId, gate.value).value
                                    .(name := updated.name, color := updated.color))
      && (gate.Ok? && CategoryCrud.GetCategory(old(db.categories), categoryId, gate.value).Some? ==>
            && (r.Err? <==> exists c :: c in old(db.categories) && c.id != categoryId && c.name == updated.name)
            && (r.Err? ==> r.error == IntegrityError(CategoryCrud.NameColumn)))
    ensures r.Ok? ==> |db.categories| == |old(db.categories)| && forall k :: 0 <= k < |db.categories| ==>
      db.categories[k] == if old(db.categories)[k].id == categoryId then r.value else old(db.categories)[k]
  {
    var gate := Auth.GetCurrentUser(codec, db.users, db.revoked, token, now);
    if gate.Err? {
      r := Err(gate.error);
      return;
    }
    var category := CategoryCrud.GetCategory(db.categories, categoryId, gate.value);
    if category.None? {
      r := Err(NotFound(CategoryNotFound));
      return;
    }
    r := CategoryCrud.UpdateCategory(db, category.value, updated);
  }

  /** DELETE /categories/{id}: 404 unless the principal owns that id, with nothing changed; otherwise that row goes. */
  method DeleteCategory(db: Database, codec: Auth.Codec, token: string, now: int, categoryId: int)
    returns (r: Result<string>)
    requires db.Valid()
    modifies db
    ensures db.Valid()
    ensures db.users == old(db.users) && db.revoked == old(db.revoked)
    ensures r.Err? ==> db.categories == old(db.categories) && db.operations == old(db.operations)
    ensures var gate := Auth.GetCurrentUser(codec, old(db.users), old(db.revoked), token, now);
      && (gate.Err? ==> r == Err(gate.error))
      && (gate.Ok? && CategoryCrud.GetCategory(old(db.categories), categoryId, gate.value).None? ==>
            r == Err(NotFound(CategoryNotFound)))
      && (r.Ok? ==> gate.Ok? && CategoryCrud.GetCategory(old(db.categories), categoryId, gate.value).Some?)
      && (gate.Ok? && CategoryCrud.GetCategory(old(db.categories), categoryId, gate.value).Some? ==> r.Ok?)
    ensures r.Ok? ==> && r.value == CategoryDeleted
                      && |db.categories| == |old(db.categories)| - 1
                      && (forall c :: c in db.categories <==> c in old(db.categories) && c.id != categoryId)
                      && (exists i :: 0 <= i < |old(db.categories)| && old(db.categories)[i].id == categoryId
                                      && db.categories == RemoveAt(old(db.categories), i))
                      && db.operations == CategoryCrud.Detached(old(db.operations), categoryId)
  {
    var gate := Auth.GetCurrentUser(codec, db.users, db.revoked, token, now);
    if gate.Err? {
      r := Err(gate.error);
      return;
    }
    var category := CategoryCrud.GetCategory(db.categories, categoryId, gate.value);
    if category.None? {
      r := Err(NotFound(CategoryNotFound));
      return;
    }
    CategoryCrud.DeleteCategory(db, category.value);
    r := Ok(CategoryDeleted);
  }
}
