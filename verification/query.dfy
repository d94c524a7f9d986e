/**
 * The handful of query shapes the service uses, over a table held as a sequence of rows
 * in insertion (primary key) order: `.filter(p).first()`, `.filter(p).all()`, the id the
 * store gives a new row, and what a unique column means.
 */
module Query {
  import opened Outcomes

  /** Position of the first row satisfying `p`. */
  function FindIndex<T>(rows: seq<T>, p: T -> bool): (r: Option<nat>)
    ensures r.Some? ==> r.value < |rows| && p(rows[r.value])
    ensures r.Some? ==> forall j :: 0 <= j < r.value ==> !p(rows[j])
    ensures r.None? ==> forall j :: 0 <= j < |rows| ==> !p(rows[j])
  {
    if rows == [] then None
    else if p(rows[0]) then Some(0)
    else match FindIndex(rows[1..], p)
      case None => None
      case Some(k) => Some(k + 1)
  }

  /** `.filter(p).first()`: some row satisfying `p`, or None exactly when there is none. */
  function First<T(!new)>(rows: seq<T>, p: T -> bool): (r: Option<T>)
    ensures r.Some? ==> r.value in rows && p(r.value)
    ensures r.None? <==> forall x :: x in rows ==> !p(x)
  {
    match FindIndex(rows, p)
    case None => None
    case Some(i) => Some(rows[i])
  }

  /** `.filter(p).all()`: the rows satisfying `p`, in table order. */
  function Filter<T(!new)>(rows: seq<T>, p: T -> bool): (r: seq<T>)
    ensures |r| <= |rows|
    ensures forall x :: x in r <==> x in rows && p(x)
  {
    if rows == [] then []
    else (if p(rows[0]) then [rows[0]] else []) + Filter(rows[1..], p)
  }

  /** Filtering distributes over concatenation, so rows added later are listed later. */
  lemma {:induction false} FilterAppend<T(!new)>(a: seq<T>, b: seq<T>, p: T -> bool)
    ensures Filter(a + b, p) == Filter(a, p) + Filter(b, p)
  {
    if a == [] {
      assert a + b == b;
    } else {
      assert (a + b)[0] == a[0];
      assert (a + b)[1..] == a[1..] + b;
      FilterAppend(a[1..], b, p);
    }
  }

  /** A row appended to a table is filtered after every earlier row. */
  lemma FilterAppendOne<T(!new)>(rows: seq<T>, x: T, p: T -> bool)
    ensures Filter(rows + [x], p) == Filter(rows, p) + (if p(x) then [x] else [])
  {
    FilterAppend(rows, [x], p);
    assert [x][1..] == [];
  }

  /** Two chained filters select, in order, exactly the rows satisfying both conditions. */
  lemma {:induction false} FilterTwice<T(!new)>(rows: seq<T>, p: T -> bool, q: T -> bool, both: T -> bool)
    requires forall x :: both(x) == (p(x) && q(x))
    ensures Filter(Filter(rows, p), q) == Filter(rows, both)
  {
    if rows != [] {
      var head := if p(rows[0]) then [rows[0]] else [];
      FilterAppend(head, Filter(rows[1..], p), q);
      assert [rows[0]][1..] == [];
      FilterTwice(rows[1..], p, q, both);
    }
  }

  /** The key the store gives a new row: one past the largest key present, and at least 1. */
  function FreshId<T(!new)>(rows: seq<T>, key: T -> int): (r: int)
    ensures r >= 1
    ensures forall x :: x in rows ==> key(x) < r
  {
    if rows == [] then 1
    else
      var rest := FreshId(rows[1..], key);
      if key(rows[0]) < rest then rest else key(rows[0]) + 1
  }

  /** A unique column: no two rows share a key. */
  ghost predicate UniqueBy<T, K>(rows: seq<T>, key: T -> K)
  {
    forall i, j :: 0 <= i < j < |rows| ==> key(rows[i]) != key(rows[j])
  }

  /** With a unique key, a row is identified by its key. */
  lemma SameKeySameRow<T, K>(rows: seq<T>, key: T -> K, x: T, y: T)
    requires UniqueBy(rows, key) && x in rows && y in rows && key(x) == key(y)
    ensures x == y
  {
    var i :| 0 <= i < |rows| && rows[i] == x;
    var j :| 0 <= j < |rows| && rows[j] == y;
    if i < j { assert key(rows[i]) != key(rows[j]); }
    else if j < i { assert key(rows[j]) != key(rows[i]); }
  }

  /** Appending a row whose key is new keeps the column unique. */
  lemma UniqueAppend<T, K>(rows: seq<T>, x: T, key: T -> K)
    requires UniqueBy(rows, key)
    requires forall y :: y in rows ==> key(y) != key(x)
    ensures UniqueBy(rows + [x], key)
  {
    var s := rows + [x];
    forall i, j | 0 <= i < j < |s| ensures key(s[i]) != key(s[j]) {
      if j == |rows| { assert s[i] in rows; }
    }
  }

  /** Overwriting one row with a row whose key no other row has keeps the column unique. */
  lemma UniqueUpdate<T, K>(rows: seq<T>, i: nat, x: T, key: T -> K)
    requires i < |rows| && UniqueBy(rows, key)
    requires forall j :: 0 <= j < |rows| && j != i ==> key(rows[j]) != key(x)
    ensures UniqueBy(rows[i := x], key)
  {
  }

  /** The table without its row at position i. */
  function RemoveAt<T>(rows: seq<T>, i: nat): (r: seq<T>)
    requires i < |rows|
    ensures |r| == |rows| - 1
    ensures forall j :: 0 <= j < i ==> r[j] == rows[j]
    ensures forall j :: i <= j < |r| ==> r[j] == rows[j + 1]
  {
    rows[..i] + rows[i + 1..]
  }

  /**
   * Deleting the row at position i of a table with a unique key keeps the key unique and
   * removes exactly the rows with that row's key.
   */
  lemma RemoveAtByKey<T, K>(rows: seq<T>, i: nat, key: T -> K)
    requires i < |rows| && UniqueBy(rows, key)
    ensures UniqueBy(RemoveAt(rows, i), key)
    ensures forall x :: x in RemoveAt(rows, i) <==> x in rows && key(x) != key(rows[i])
  {
    var r := RemoveAt(rows, i);
    forall a, b | 0 <= a < b < |r| ensures key(r[a]) != key(r[b]) {
      var a' := if a < i then a else a + 1;
      var b' := if b < i then b else b + 1;
      assert r[a] == rows[a'] && r[b] == rows[b'] && a' < b';
    }
    forall x ensures x in r <==> x in rows && key(x) != key(rows[i]) {
      if x in r {
        var a :| 0 <= a < |r| && r[a] == x;
        var a' := if a < i then a else a + 1;
        assert rows[a'] == x;
        if a' < i { assert key(rows[a']) != key(rows[i]); }
        else { assert key(rows[i]) != key(rows[a']); }
      }
      if x in rows && key(x) != key(rows[i]) {
        var a' :| 0 <= a' < |rows| && rows[a'] == x;
        assert a' != i;
        var a := if a' < i then a' else a' - 1;
        assert r[a] == x;
      }
    }
  }
}
