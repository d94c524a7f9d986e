/** Owner-scoped category persistence (crud/category.py). */
module CategoryCrud {
  import opened Outcomes
  import opened Query
  import opened Models

  /** The unique column that rejects a second category with the same name, whoever owns it. */
  const NameColumn: string := "categories.name"

  /** The request body of create and update: the owner is never part of it. */
  datatype CategoryCreate = CategoryCreate(name: string, color: Option<string>)

  /** One `setattr` of the update loop. */
  datatype CategoryField = NameField(name: string) | ColorField(color: Option<string>)

  /** model_dump(): the payload's fields, in declaration order. */
  function Dump(payload: CategoryCreate): seq<CategoryField>
  {
    [NameField(payload.name), ColorField(payload.color)]
  }

  function SetAttr(c: Category, f: CategoryField): Category
  {
    match f
    case NameField(n) => c.(name := n)
    case ColorField(col) => c.(color := col)
  }

  /** The row after assigning `fields` one after the other. */
  function Assigned(c: Category, fields: seq<CategoryField>): Category
  {
    if fields == [] then c else SetAttr(Assigned(c, fields[..|fields| - 1]), fields[|fields| - 1])
  }

  /** No payload field is the id or the owner. */
  lemma {:induction false} AssignedKeepsKeys(c: Category, fields: seq<CategoryField>)
    ensures Assigned(c, fields).id == c.id && Assigned(c, fields).userId == c.userId
  {
    if fields != [] {
      AssignedKeepsKeys(c, fields[..|fields| - 1]);
    }
  }

  /** Assigning a dumped payload overwrites name and color and nothing else. */
  lemma DumpOverwrites(c: Category, payload: CategoryCreate)
    ensures Assigned(c, Dump(payload)) == c.(name := payload.name, color := payload.color)
  {
    var fields := Dump(payload);
    assert fields[..1][..0] == [];
    assert Assigned(c, fields[..1]) == c.(name := payload.name);
    assert fields[..2] == fields;
  }

  /** The `for key, value in updated.model_dump().items(): setattr(category, key, value)` loop. */
  method ApplyFields(c: Category, fields: seq<CategoryField>) returns (r: Category)
    ensures r == Assigned(c, fields)
    ensures r.id == c.id && r.userId == c.userId
  {
    r := c;
    var i := 0;
    while i < |fields|
      invariant 0 <= i <= |fields|
      invariant r == Assigned(c, fields[..i])
    {
      assert fields[..i + 1][..i] == fields[..i];
      r := SetAttr(r, fields[i]);
      i := i + 1;
    }
    assert fields[..i] == fields;
    AssignedKeepsKeys(c, fields);
  }

  /** get_categories: exactly the principal's categories, in creation order. */
  function GetCategories(categories: seq<Category>, current: User): (r: seq<Category>)
    ensures forall c :: c in r <==> c in categories && c.userId == current.id
  {
    Filter(categories, (c: Category) => c.userId == current.id)
  }

  /** A category created later is listed after the ones before it; others' rows never show. */
  lemma ListedInCreationOrder(categories: seq<Category>, c: Category, current: User)
    ensures GetCategories(categories + [c], current) ==
      GetCategories(categories, current) + (if c.userId == current.id then [c] else [])
  {
    FilterAppend(categories, [c], (x: Category) => x.userId == current.id);
    assert [c][1..] == [];
  }

  /** get_category: the row with this id if the principal owns it; None both when absent and when not owned. */
  function GetCategory(categories: seq<Category>, categoryId: int, current: User): (r: Option<Category>)
    ensures r.Some? ==> r.value in categories && r.value.id == categoryId && r.value.userId == current.id
    ensures r.None? <==> forall c :: c in categories ==> !(c.id == categoryId && c.userId == current.id)
  {
    First(categories, (c: Category) => c.id == categoryId && c.userId == current.id)
  }

  /**
   * Anti-enumeration: what the principal sees of a category id depends only on the principal's
   * own rows, so another user's row at that id looks exactly like no row.
   */
  lemma LookupSeesOnlyOwnRows(cats1: seq<Category>, cats2: seq<Category>, categoryId: int, current: User)
    requires UniqueBy(cats1, CategoryId) && UniqueBy(cats2, CategoryId)
    requires GetCategories(cats1, current) == GetCategories(cats2, current)
    ensures GetCategory(cats1, categoryId, current) == GetCategory(cats2, categoryId, current)
  {
    var r1, r2 := GetCategory(cats1, categoryId, current), GetCategory(cats2, categoryId, current);
    if r1.Some? {
      assert r1.value in GetCategories(cats1, current);
      SameKeySameRow(cats2, CategoryId, r1.value, r2.value);
    }
  }

  /**
   * create_category: a new row with a fresh id, the payload's name and color, and the principal
   * as owner. A name any category already has makes the commit fail and nothing is stored.
   */
  method CreateCategory(db: Database, payload: CategoryCreate, current: User) returns (r: Result<Category>)
    requires db.Valid()
    modifies db
    ensures db.Valid()
    ensures db.users == old(db.users) && db.operations == old(db.operations) && db.revoked == old(db.revoked)
    ensures r.Err? <==> exists c :: c in old(db.categories) && c.name == payload.name
    ensures r.Err? ==> r.error == IntegrityError(NameColumn) && db.categories == old(db.categories)
    ensures r.Ok? ==> db.categories == old(db.categories) + [r.value]
    ensures r.Ok? ==> && r.value.name == payload.name && r.value.color == payload.color
                      && r.value.userId == current.id
    ensures r.Ok? ==> forall c :: c in old(db.categories) ==> c.id < r.value.id
  {
    if First(db.categories, (c: Category) => c.name == payload.name).Some? {
      r := Err(IntegrityError(NameColumn));
      return;
    }
    var row := Category(FreshId(db.categories, CategoryId), payload.name, payload.color, current.id);
    UniqueAppend(db.categories, row, CategoryId);
    UniqueAppend(db.categories, row, CategoryName);
    db.categories := db.categories + [row];
    r := Ok(row);
  }

  /**
   * update_category: overwrites name and color of the stored row, keeping its id and owner, and
   * returns it. A name another category has makes the commit fail and nothing changes.
   */
  method UpdateCategory(db: Database, category: Category, updated: CategoryCreate) returns (r: Result<Category>)
    requires db.Valid() && category in db.categories
    modifies db
    ensures db.Valid()
    ensures db.users == old(db.users) && db.operations == old(db.operations) && db.revoked == old(db.revoked)
    ensures r.Err? <==> exists c :: c in old(db.categories) && c.id != category.id && c.name == updated.name
    ensures r.Err? ==> r.error == IntegrityError(NameColumn) && db.categories == old(db.categories)
    ensures r.Ok? ==> r.value == category.(name := updated.name, color := updated.color)
    ensures r.Ok? ==> |db.categories| == |old(db.categories)| && forall k :: 0 <= k < |db.categories| ==>
      db.categories[k] == if old(db.categories)[k].id == category.id then r.value else old(db.categories)[k]
  {
    var changed := ApplyFields(category, Dump(updated));
    DumpOverwrites(category, updated);
    var i := FindIndex(db.categories, (c: Category) => c.id == category.id).value;
    SameKeySameRow(db.categories, CategoryId, db.categories[i], category);
    forall j | 0 <= j < |db.categories| && j != i ensures db.categories[j].id != category.id {
      if j < i { assert CategoryId(db.categories[j]) != CategoryId(db.categories[i]); }
      else { assert CategoryId(db.categories[i]) != CategoryId(db.categories[j]); }
    }
    if First(db.categories, (c: Category) => c.id != category.id && c.name == changed.name).Some? {
      r := Err(IntegrityError(NameColumn));
      return;
    }
    UniqueUpdate(db.categories, i, changed, CategoryId);
    UniqueUpdate(db.categories, i, changed, CategoryName);
    db.categories := db.categories[i := changed];
    r := Ok(changed);
  }

  /**
   * delete_category: removes exactly that row. The operations filed under it stay, with their
   * category reference cleared (the relationship's default cascade).
   */
  method DeleteCategory(db: Database, category: Category)
    requires db.Valid() && category in db.categories
    modifies db
    ensures db.Valid()
    ensures db.users == old(db.users) && db.revoked == old(db.revoked)
    ensures |db.categories| == |old(db.categories)| - 1
    ensures forall c :: c in db.categories <==> c in old(db.categories) && c.id != category.id
    ensures exists i :: 0 <= i < |old(db.categories)| && old(db.categories)[i] == category
                        && db.categories == RemoveAt(old(db.categories), i)
    ensures db.operations == Detached(old(db.operations), category.id)
  {
    var i := FindIndex(db.categories, (c: Category) => c.id == category.id).value;
    SameKeySameRow(db.categories, CategoryId, db.categories[i], category);
    RemoveAtByKey(db.categories, i, CategoryId);
    RemoveAtByKey(db.categories, i, CategoryName);
    var ops := Detached(db.operations, category.id);
    assert UniqueBy(ops, OperationId) by {
      forall a, b | 0 <= a < b < |ops| ensures OperationId(ops[a]) != OperationId(ops[b]) {
        assert OperationId(db.operations[a]) != OperationId(db.operations[b]);
      }
    }
    db.categories := RemoveAt(db.categories, i);
    db.operations := ops;
    assert old(db.categories)[i] == category;
  }

  /** The operations table after category `categoryId` is deleted: references to it become null. */
  function Detached(operations: seq<Operation>, categoryId: int): (r: seq<Operation>)
    ensures |r| == |operations|
    ensures forall k :: 0 <= k < |r| ==> r[k].id == operations[k].id && r[k].userId == operations[k].userId
    ensures forall k :: 0 <= k < |r| ==> r[k].categoryId != Some(categoryId)
    ensures forall k :: 0 <= k < |r| && operations[k].categoryId != Some(categoryId) ==> r[k] == operations[k]
    ensures forall k :: 0 <= k < |r| && operations[k].categoryId == Some(categoryId) ==>
      r[k] == operations[k].(categoryId := None)
  {
    seq(|operations|, k requires 0 <= k < |operations| =>
      if operations[k].categoryId == Some(categoryId) then operations[k].(categoryId := None) else operations[k])
  }
}
