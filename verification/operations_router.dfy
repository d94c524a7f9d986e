/**
 * Operation routes (routers/operations.py). Each runs the authentication gate first; a row that
 * is absent and a row owned by someone else both give the same 404.
 */
module OperationsRouter {
  import opened Outcomes
  import opened Models
  import Auth
  import OperationCrud
  import opened Query

  const OperationNotFound: string := "Operation not found"

  /** The balance route's answer: the total in the principal's own currency. */
  datatype BalanceResponse = BalanceResponse(balance: int, currency: string)

  /** GET /operations/: the principal's operations, the optional date bounds passed through as given. */
  function ListOperations(codec: Auth.Codec, users: seq<User>, revoked: seq<RevokedToken>, operations: seq<Operation>,
                          token: string, now: int, startDate: Option<int>, endDate: Option<int>)
    : (r: Result<seq<Operation>>)
    ensures var gate := Auth.GetCurrentUser(codec, users, revoked, token, now);
      && (gate.Err? ==> r == Err(gate.error))
      && (gate.Ok? ==> r == Ok(OperationCrud.GetOperations(operations, gate.value, startDate, endDate)))
      && (r.Ok? ==> forall o :: o in r.value ==> o in operations && o.userId == gate.value.id)
  {
    match Auth.GetCurrentUser(codec, users, revoked, token, now)
    case Err(e) => Err(e)
    case Ok(current) => Ok(OperationCrud.GetOperations(operations, current, startDate, endDate))
  }

  /** POST /operations/: stores the payload, owned by the principal. */
  method CreateOperation(db: Database, codec: Auth.Codec, token: string, now: int, payload: OperationCrud.OperationCreate)
    returns (r: Result<Operation>)
    requires db.Valid()
    modifies db
    ensures db.Valid()
    ensures db.users == old(db.users) && db.categories == old(db.categories) && db.revoked == old(db.revoked)
    ensures r.Err? ==> db.operations == old(db.operations)
    ensures var gate := Auth.GetCurrentUser(codec, old(db.users), old(db.revoked), token, now);
      && (gate.Err? ==> r == Err(gate.error))
      && (gate.Ok? ==> r.Ok?)
      && (r.Ok? ==> && gate.Ok? && r.value.userId == gate.value.id
                    && r.value.date == payload.date && r.value.amount == payload.amount
                    && r.value.comment == payload.comment && r.value.categoryId == payload.categoryId
                    && db.operations == old(db.operations) + [r.value])
  {
    var gate := Auth.GetCurrentUser(codec, db.users, db.revoked, token, now);
    if gate.Err? {
      r := Err(gate.error);
      return;
    }
    var created := OperationCrud.CreateOperation(db, payload, gate.value);
    r := Ok(created);
  }

  /** GET /operations/{id}: the principal's operation with that id, else 404. */
  function GetOperation(codec: Auth.Codec, users: seq<User>, revoked: seq<RevokedToken>, operations: seq<Operation>,
                        operationId: int, token: string, now: int): (r: Result<Operation>)
    ensures var gate := Auth.GetCurrentUser(codec, users, revoked, token, now);
      && (gate.Err? ==> r == Err(gate.error))
      && (r.Ok? ==> gate.Ok? && r.value in operations && r.value.id == operationId && r.value.userId == gate.value.id)
      && (gate.Ok? && r.Err? ==> r.error == NotFound(OperationNotFound))
      && (gate.Ok? ==> (r.Err? <==> forall o :: o in operations ==> !(o.id == operationId && o.userId == gate.value.id)))
  {
    match Auth.GetCurrentUser(codec, users, revoked, token, now)
    case Err(e) => Err(e)
    case Ok(current) =>
      match OperationCrud.GetOperation(operations, operationId, current)
      case None => Err(NotFound(OperationNotFound))
      case Some(o) => Ok(o)
  }

  /**
   * PUT /operations/{id}: 404 unless the principal owns that id, with nothing changed; otherwise
   * the payload's fields overwrite the row and every other row stays as it was.
   */
  method UpdateOperation(db: Database, codec: Auth.Codec, token: string, now: int, operationId: int,
                         updated: OperationCrud.OperationCreate) returns (r: Result<Operation>)
    requires db.Valid()
    modifies db
    ensures db.Valid()
    ensures db.users == old(db.users) && db.categories == old(db.categories) && db.revoked == old(db.revoked)
    ensures r.Err? ==> db.operations == old(db.operations)
    ensures var gate := Auth.GetCurrentUser(codec, old(db.users), old(db.revoked), token, now);
      && (gate.Err? ==> r == Err(gate.error))
      && (gate.Ok? && OperationCrud.GetOperation(old(db.operations), operationId, gate.value).None? ==>
            r == Err(NotFound(OperationNotFound)))
      && (r.Ok? ==> && gate.Ok? && OperationCrud.GetOperation(old(db.operations), operationId, gate.value).Some?
                    && r.value == OperationCrud.GetOperation(old(db.operations), operationId, gate.value).value
                         .(date := updated.date, amount := updated.amount, comment := updated.comment,
                           categoryId := updated.categoryId))
      && (gate.Ok? && OperationCrud.GetOperation(old(db.operations), operationId, gate.value).Some? ==> r.Ok?)
    ensures r.Ok? ==> |db.operations| == |old(db.operations)| && forall k :: 0 <= k < |db.operations| ==>
      db.operations[k] == if old(db.operations)[k].id == operationId then r.value else old(db.operations)[k]
  {
    var gate := Auth.GetCurrentUser(codec, db.users, db.revoked, token, now);
    if gate.Err? {
      r := Err(gate.error);
      return;
    }
    var op := OperationCrud.GetOperation(db.operations, operationId, gate.value);
    if op.None? {
      r := Err(NotFound(OperationNotFound));
      return;
    }
    var changed := OperationCrud.UpdateOperation(db, op.value, updated);
    r := Ok(changed);
  }

  /** DELETE /operations/{id}: 404 unless the principal owns that id, with nothing changed; otherwise that row goes. */
  method DeleteOperation(db: Database, codec: Auth.Codec, token: string, now: int, operationId: int)
    returns (r: Result<()>)
    requires db.Valid()
    modifies db
    ensures db.Valid()
    ensures db.users == old(db.users) && db.categories == old(db.categories) && db.revoked == old(db.revoked)
    ensures r.Err? ==> db.operations == old(db.operations)
    ensures var gate := Auth.GetCurrentUser(codec, old(db.users), old(db.revoked), token, now);
      && (gate.Err? ==> r == Err(gate.error))
      && (gate.Ok? && OperationCrud.GetOperation(old(db.operations), operationId, gate.value).None? ==>
            r == Err(NotFound(OperationNotFound)))
      && (r.Ok? ==> gate.Ok? && OperationCrud.GetOperation(old(db.operations), operationId, gate.value).Some?)
      && (gate.Ok? && OperationCrud.GetOperation(old(db.operations), operationId, gate.value).Some? ==> r.Ok?)
    ensures r.Ok? ==> && |db.operations| == |old(db.operations)| - 1
                      && (forall o :: o in db.operations <==> o in old(db.operations) && o.id != operationId)
                      && exists i :: 0 <= i < |old(db.operations)| && old(db.operations)[i].id == operationId
                                     && db.operations == RemoveAt(old(db.operations), i)
  {
    var gate := Auth.GetCurrentUser(codec, db.users, db.revoked, token, now);
    if gate.Err? {
      r := Err(gate.error);
      return;
    }
    var op := OperationCrud.GetOperation(db.operations, operationId, gate.value);
    if op.None? {
      r := Err(NotFound(OperationNotFound));
      return;
    }
    OperationCrud.DeleteOperation(db, op.value);
    r := Ok(());
  }

  /** GET /operations/balance/total: the principal's balance paired with the principal's currency. */
  function GetTotalBalance(codec: Auth.Codec, users: seq<User>, revoked: seq<RevokedToken>, operations: seq<Operation>,
                           token: string, now: int): (r: Result<BalanceResponse>)
    ensures var gate := Auth.GetCurrentUser(codec, users, revoked, token, now);
      && (gate.Err? ==> r == Err(gate.error))
      && (gate.Ok? ==> && r.Ok? && r.value.currency == gate.value.currency
                       && r.value.balance == OperationCrud.Total(OperationCrud.GetOperations(operations, gate.value, None, None)))
  {
    match Auth.GetCurrentUser(codec, users, revoked, token, now)
    case Err(e) => Err(e)
    case Ok(current) => Ok(BalanceResponse(OperationCrud.GetTotalBalance(operations, current), current.currency))
  }
}
