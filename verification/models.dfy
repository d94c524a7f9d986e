/**
 * The four tables of the service and their column constraints. Rows are values; a table is
 * a sequence of rows in primary key order. The store as a whole is the `Database` object
 * every request handler reads and writes.
 */
module Models {
  import opened Outcomes
  import opened Query

  /**
   * A row of `users`. `role` is not a column of the table: it is an attribute that an
   * instance may or may not carry, so None means "no role attribute".
   */
  datatype User = User(id: int, email: string, hashedPassword: string, currency: string, role: Option<string>)

  /** A row of `categories`; `userId` is the non-null owner. */
  datatype Category = Category(id: int, name: string, color: Option<string>, userId: int)

  /** A row of `operations`: `date` is a day number, `amount` is in cents; `userId` is the non-null owner. */
  datatype Operation = Operation(id: int, date: int, amount: int, comment: Option<string>, categoryId: Option<int>, userId: int)

  /** A row of `revoked_tokens`: a raw token string that logout invalidated. */
  datatype RevokedToken = RevokedToken(id: int, token: string)

  /** Column default of `users.currency`, also the request default. */
  const DefaultCurrency: string := "$"

  // Column projections, used as the keys of the unique columns and of the primary keys.
  function UserId(u: User): int { u.id }
  function UserEmail(u: User): string { u.email }
  function CategoryId(c: Category): int { c.id }
  function CategoryName(c: Category): string { c.name }
  function OperationId(o: Operation): int { o.id }
  function RevokedId(t: RevokedToken): int { t.id }
  function RevokedText(t: RevokedToken): string { t.token }

  /** Every primary key and every unique column holds distinct values. */
  ghost predicate TablesValid(users: seq<User>, categories: seq<Category>, operations: seq<Operation>, revoked: seq<RevokedToken>)
  {
    && UniqueBy(users, UserId) && UniqueBy(users, UserEmail)
    && UniqueBy(categories, CategoryId) && UniqueBy(categories, CategoryName)
    && UniqueBy(operations, OperationId)
    && UniqueBy(revoked, RevokedId) && UniqueBy(revoked, RevokedText)
  }

  /** The persistent store: the only state shared between requests. */
  class Database {
    var users: seq<User>
    var categories: seq<Category>
    var operations: seq<Operation>
    var revoked: seq<RevokedToken>

    ghost predicate Valid()
      reads this
    {
      TablesValid(users, categories, operations, revoked)
    }

    /** Freshly created tables. */
    constructor ()
      ensures Valid()
      ensures users == [] && categories == [] && operations == [] && revoked == []
    {
      users, categories, operations, revoked := [], [], [], [];
    }
  }
}
