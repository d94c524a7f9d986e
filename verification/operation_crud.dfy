/** Owner-scoped operation persistence and the balance aggregate (crud/operation.py). */
module OperationCrud {
  import opened Outcomes
  import opened Query
  import opened Models

  /** The request body of create and update: the owner is never part of it. */
  datatype OperationCreate = OperationCreate(date: int, amount: int, comment: Option<string>, categoryId: Option<int>)

  /** One `setattr` of the update loop. */
  datatype OperationField =
    | DateField(date: int)
    | AmountField(amount: int)
    | CommentField(comment: Option<string>)
    | CategoryIdField(categoryId: Option<int>)

  /** model_dump(): the payload's fields, in declaration order. */
  function Dump(payload: OperationCreate): seq<OperationField>
  {
    [DateField(payload.date), AmountField(payload.amount), CommentField(payload.comment), CategoryIdField(payload.categoryId)]
  }

  function SetAttr(o: Operation, f: OperationField): Operation
  {
    match f
    case DateField(d) => o.(date := d)
    case AmountField(a) => o.(amount := a)
    case CommentField(c) => o.(comment := c)
    case CategoryIdField(c) => o.(categoryId := c)
  }

  /** The row after assigning `fields` one after the other. */
  function Assigned(o: Operation, fields: seq<OperationField>): Operation
  {
    if fields == [] then o else SetAttr(Assigned(o, fields[..|fields| - 1]), fields[|fields| - 1])
  }

  /** No payload field is the id or the owner. */
  lemma {:induction false} AssignedKeepsKeys(o: Operation, fields: seq<OperationField>)
    ensures Assigned(o, fields).id == o.id && Assigned(o, fields).userId == o.userId
  {
    if fields != [] {
      AssignedKeepsKeys(o, fields[..|fields| - 1]);
    }
  }

  /** Assigning a dumped payload overwrites date, amount, comment and category, and nothing else. */
  lemma DumpOverwrites(o: Operation, payload: OperationCreate)
    ensures Assigned(o, Dump(payload)) ==
      o.(date := payload.date, amount := payload.amount, comment := payload.comment, categoryId := payload.categoryId)
  {
    var fields := Dump(payload);
    assert fields[..1][..0] == [];
    assert fields[..2][..1] == fields[..1];
    assert fields[..3][..2] == fields[..2];
    assert fields[..4][..3] == fields[..3];
    assert Assigned(o, fields[..1]) == o.(date := payload.date);
    assert Assigned(o, fields[..2]) == o.(date := payload.date, amount := payload.amount);
    assert Assigned(o, fields[..3]) == o.(date := payload.date, amount := payload.amount, comment := payload.comment);
    assert fields[..4] == fields;
  }

  /** The `for key, value in updated.model_dump().items(): setattr(op, key, value)` loop. */
  method ApplyFields(o: Operation, fields: seq<OperationField>) returns (r: Operation)
    ensures r == Assigned(o, fields)
    ensures r.id == o.id && r.userId == o.userId
  {
    r := o;
    var i := 0;
    while i < |fields|
      invariant 0 <= i <= |fields|
      invariant r == Assigned(o, fields[..i])
    {
      assert fields[..i + 1][..i] == fields[..i];
      r := SetAttr(r, fields[i]);
      i := i + 1;
    }
    assert fields[..i] == fields;
    AssignedKeepsKeys(o, fields);
  }

  /** The conditions get_operations chains: ownership and the two inclusive date bounds. */
  function OwnedBy(userId: int): Operation -> bool { (o: Operation) => o.userId == userId }
  function OnOrAfter(day: int): Operation -> bool { (o: Operation) => o.date >= day }
  function OnOrBefore(day: int): Operation -> bool { (o: Operation) => o.date <= day }

  /** Whether `o` falls in the principal's listing for the given optional bounds. */
  predicate InWindow(o: Operation, current: User, startDate: Option<int>, endDate: Option<int>)
  {
    && o.userId == current.id
    && (startDate.Some? ==> startDate.value <= o.date)
    && (endDate.Some? ==> o.date <= endDate.value)
  }

  /**
   * get_operations: the principal's operations, narrowed to `date >= startDate` and to
   * `date <= endDate` when those bounds are given; both bounds are inclusive.
   */
  function GetOperations(operations: seq<Operation>, current: User, startDate: Option<int>, endDate: Option<int>)
    : (r: seq<Operation>)
    ensures forall o :: o in r <==> o in operations && InWindow(o, current, startDate, endDate)
  {
    var owned := Filter(operations, OwnedBy(current.id));
    var fromStart := if startDate.Some? then Filter(owned, OnOrAfter(startDate.value)) else owned;
    if endDate.Some? then Filter(fromStart, OnOrBefore(endDate.value)) else fromStart
  }

  /**
   * Operations are listed in creation order, each once: a new operation comes after every earlier
   * one when it falls in the window, and leaves the listing unchanged otherwise.
   */
  lemma ListedInCreationOrder(operations: seq<Operation>, o: Operation, current: User,
                              startDate: Option<int>, endDate: Option<int>)
    ensures GetOperations(operations + [o], current, startDate, endDate) ==
      GetOperations(operations, current, startDate, endDate)
        + (if InWindow(o, current, startDate, endDate) then [o] else [])
  {
    var owned := Filter(operations, OwnedBy(current.id));
    FilterAppendOne(operations, o, OwnedBy(current.id));
    var fromStart := if startDate.Some? then Filter(owned, OnOrAfter(startDate.value)) else owned;
    if startDate.Some? {
      if o.userId == current.id {
        FilterAppendOne(owned, o, OnOrAfter(startDate.value));
      } else {
        assert owned + [] == owned;
      }
    }
    var keptSoFar := o.userId == current.id && (startDate.Some? ==> startDate.value <= o.date);
    assert Filter(operations + [o], OwnedBy(current.id)) == owned + (if o.userId == current.id then [o] else []);
    if endDate.Some? {
      if keptSoFar {
        FilterAppendOne(fromStart, o, OnOrBefore(endDate.value));
      } else {
        assert fromStart + [] == fromStart;
      }
    }
  }

  /** A window of one day lists exactly the principal's operations dated that day, in table order. */
  lemma OneDayWindow(operations: seq<Operation>, current: User, day: int)
    ensures GetOperations(operations, current, Some(day), Some(day)) ==
      Filter(operations, (o: Operation) => o.userId == current.id && o.date == day)
  {
    var ownedFrom := (o: Operation) => o.userId == current.id && o.date >= day;
    FilterTwice(operations, OwnedBy(current.id), OnOrAfter(day), ownedFrom);
    FilterTwice(operations, ownedFrom, OnOrBefore(day), (o: Operation) => o.userId == current.id && o.date == day);
  }

  /**
   * The date-filter test: with one operation dated today and one dated yesterday, a window of
   * today lists only today's operation.
   */
  lemma TodayWindowListsOne(current: User, today: Operation, yesterday: Operation)
    requires today.userId == current.id && yesterday.userId == current.id
    requires yesterday.date == today.date - 1
    ensures GetOperations([today, yesterday], current, Some(today.date), Some(today.date)) == [today]
  {
    OneDayWindow([today, yesterday], current, today.date);
    assert [today, yesterday][1..] == [yesterday];
    assert [yesterday][1..] == [];
  }

  /** create_operation: a new row with a fresh id, the payload's fields, and the principal as owner. */
  method CreateOperation(db: Database, payload: OperationCreate, current: User) returns (r: Operation)
    requires db.Valid()
    modifies db
    ensures db.Valid()
    ensures db.users == old(db.users) && db.categories == old(db.categories) && db.revoked == old(db.revoked)
    ensures db.operations == old(db.operations) + [r]
    ensures && r.date == payload.date && r.amount == payload.amount && r.comment == payload.comment
            && r.categoryId == payload.categoryId && r.userId == current.id
    ensures forall o :: o in old(db.operations) ==> o.id < r.id
  {
    r := Operation(FreshId(db.operations, OperationId), payload.date, payload.amount, payload.comment,
                   payload.categoryId, current.id);
    UniqueAppend(db.operations, r, OperationId);
    db.operations := db.operations + [r];
  }

  /** get_operation: the row with this id if the principal owns it; None both when absent and when not owned. */
  function GetOperation(operations: seq<Operation>, operationId: int, current: User): (r: Option<Operation>)
    ensures r.Some? ==> r.value in operations && r.value.id == operationId && r.value.userId == current.id
    ensures r.None? <==> forall o :: o in operations ==> !(o.id == operationId && o.userId == current.id)
  {
    First(operations, (o: Operation) => o.id == operationId && o.userId == current.id)
  }

  /**
   * Anti-enumeration: what the principal sees of an operation id depends only on the principal's
   * own rows, so another user's row at that id looks exactly like no row.
   */
  lemma LookupSeesOnlyOwnRows(ops1: seq<Operation>, ops2: seq<Operation>, operationId: int, current: User)
    requires UniqueBy(ops1, OperationId) && UniqueBy(ops2, OperationId)
    requires GetOperations(ops1, current, None, None) == GetOperations(ops2, current, None, None)
    ensures GetOperation(ops1, operationId, current) == GetOperation(ops2, operationId, current)
  {
    var r1, r2 := GetOperation(ops1, operationId, current), GetOperation(ops2, operationId, current);
    if r1.Some? {
      assert r1.value in GetOperations(ops1, current, None, None);
      SameKeySameRow(ops2, OperationId, r1.value, r2.value);
    }
  }

  /**
   * update_operation: overwrites date, amount, comment and category of the stored row in place,
   * keeping its id and owner; `r` is that same row after the update.
   */
  method UpdateOperation(db: Database, op: Operation, updated: OperationCreate) returns (r: Operation)
    requires db.Valid() && op in db.operations
    modifies db
    ensures db.Valid()
    ensures db.users == old(db.users) && db.categories == old(db.categories) && db.revoked == old(db.revoked)
    ensures r == op.(date := updated.date, amount := updated.amount, comment := updated.comment,
                     categoryId := updated.categoryId)
    ensures |db.operations| == |old(db.operations)| && forall k :: 0 <= k < |db.operations| ==>
      db.operations[k] == if old(db.operations)[k].id == op.id then r else old(db.operations)[k]
  {
    r := ApplyFields(op, Dump(updated));
    DumpOverwrites(op, updated);
    var i := FindIndex(db.operations, (o: Operation) => o.id == op.id).value;
    SameKeySameRow(db.operations, OperationId, db.operations[i], op);
    forall j | 0 <= j < |db.operations| && j != i ensures db.operations[j].id != op.id {
      if j < i { assert OperationId(db.operations[j]) != OperationId(db.operations[i]); }
      else { assert OperationId(db.operations[i]) != OperationId(db.operations[j]); }
    }
    UniqueUpdate(db.operations, i, r, OperationId);
    db.operations := db.operations[i := r];
  }

  /** delete_operation: removes exactly that row. */
  method DeleteOperation(db: Database, op: Operation)
    requires db.Valid() && op in db.operations
    modifies db
    ensures db.Valid()
    ensures db.users == old(db.users) && db.categories == old(db.categories) && db.revoked == old(db.revoked)
    ensures |db.operations| == |old(db.operations)| - 1
    ensures forall o :: o in db.operations <==> o in old(db.operations) && o.id != op.id
    ensures exists i :: 0 <= i < |old(db.operations)| && old(db.operations)[i] == op
                        && db.operations == RemoveAt(old(db.operations), i)
    ensures forall u: User ::
              GetTotalBalance(db.operations, u) ==
              GetTotalBalance(old(db.operations), u) - (if op.userId == u.id then op.amount else 0)
  {
    var i := FindIndex(db.operations, (o: Operation) => o.id == op.id).value;
    SameKeySameRow(db.operations, OperationId, db.operations[i], op);
    RemoveAtByKey(db.operations, i, OperationId);
    forall u: User ensures GetTotalBalance(RemoveAt(db.operations, i), u) ==
      GetTotalBalance(db.operations, u) - (if op.userId == u.id then op.amount else 0)
    {
      BalanceAfterDelete(db.operations, i, u);
    }
    db.operations := RemoveAt(db.operations, i);
    assert old(db.operations)[i] == op;
  }

  /** The sum of the amounts of `operations`. */
  function Total(operations: seq<Operation>): int
  {
    if operations == [] then 0 else operations[0].amount + Total(operations[1..])
  }

  lemma {:induction false} TotalAppend(a: seq<Operation>, b: seq<Operation>)
    ensures Total(a + b) == Total(a) + Total(b)
  {
    if a == [] {
      assert a + b == b;
    } else {
      assert (a + b)[0] == a[0];
      assert (a + b)[1..] == a[1..] + b;
      TotalAppend(a[1..], b);
    }
  }

  /** SQL `SUM(amount)`: NULL over no rows. */
  function SqlSum(operations: seq<Operation>): (r: Option<int>)
    ensures r.None? <==> operations == []
    ensures r.Some? ==> r.value == Total(operations)
  {
    if operations == [] then None else Some(Total(operations))
  }

  /** get_total_balance: the sum of the principal's amounts, 0 when the sum is NULL. */
  function GetTotalBalance(operations: seq<Operation>, current: User): (b: int)
    ensures b == Total(GetOperations(operations, current, None, None))
    ensures GetOperations(operations, current, None, None) == [] ==> b == 0
  {
    SqlSum(Filter(operations, OwnedBy(current.id))).GetOr(0)
  }

  /** A new operation adds its amount to its owner's balance and leaves everyone else's alone. */
  lemma BalanceAfterCreate(operations: seq<Operation>, o: Operation, current: User)
    ensures GetTotalBalance(operations + [o], current) ==
      GetTotalBalance(operations, current) + (if o.userId == current.id then o.amount else 0)
  {
    var owned := OwnedBy(current.id);
    FilterAppend(operations, [o], owned);
    assert [o][1..] == [];
    TotalAppend(Filter(operations, owned), Filter([o], owned));
  }

  /** Deleting an operation takes its amount off its owner's balance and leaves everyone else's alone. */
  lemma BalanceAfterDelete(operations: seq<Operation>, i: nat, current: User)
    requires i < |operations|
    ensures GetTotalBalance(RemoveAt(operations, i), current) ==
      GetTotalBalance(operations, current) - (if operations[i].userId == current.id then operations[i].amount else 0)
  {
    var owned := OwnedBy(current.id);
    var before, after := operations[..i], operations[i + 1..];
    assert operations == before + [operations[i]] + after;
    assert RemoveAt(operations, i) == before + after;
    assert [operations[i]][1..] == [];
    FilterAppend(before + [operations[i]], after, owned);
    FilterAppend(before, [operations[i]], owned);
    FilterAppend(before, after, owned);
    TotalAppend(Filter(before, owned) + Filter([operations[i]], owned), Filter(after, owned));
    TotalAppend(Filter(before, owned), Filter([operations[i]], owned));
    TotalAppend(Filter(before, owned), Filter(after, owned));
  }
}
