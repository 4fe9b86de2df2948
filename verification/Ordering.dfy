/** The `ORDER BY timestamp, id` used by the audit verifier and by every keyset-paginated listing. */
module Ordering {

  /** Sort key of a row: a timestamp and, to break ties, the row's identifier. */
  datatype Key = Key(at: int, id: int)

  predicate Less(a: Key, b: Key) {
    a.at < b.at || (a.at == b.at && a.id < b.id)
  }

  /** `a` is listed before `b`, newest first when `desc` is set. */
  predicate Precedes(desc: bool, a: Key, b: Key) {
    if desc then Less(b, a) else Less(a, b)
  }

  ghost predicate DistinctKeys<T>(key: T -> Key, rows: seq<T>) {
    forall i, j :: 0 <= i < j < |rows| ==> key(rows[i]) != key(rows[j])
  }

  ghost predicate Ordered<T>(key: T -> Key, desc: bool, rows: seq<T>) {
    forall i, j :: 0 <= i < j < |rows| ==> Precedes(desc, key(rows[i]), key(rows[j]))
  }

  function InsertInOrder<T>(key: T -> Key, desc: bool, x: T, rows: seq<T>): seq<T> {
    if rows == [] || Precedes(desc, key(x), key(rows[0])) then [x] + rows
    else [rows[0]] + InsertInOrder(key, desc, x, rows[1..])
  }

  function OrderBy<T>(key: T -> Key, desc: bool, rows: seq<T>): seq<T> {
    if rows == [] then [] else InsertInOrder(key, desc, rows[0], OrderBy(key, desc, rows[1..]))
  }

  lemma {:induction false} InsertPermutes<T>(key: T -> Key, desc: bool, x: T, rows: seq<T>)
    ensures multiset(InsertInOrder(key, desc, x, rows)) == multiset([x] + rows)
  {
    if rows != [] && !Precedes(desc, key(x), key(rows[0])) {
      InsertPermutes(key, desc, x, rows[1..]);
      assert rows == [rows[0]] + rows[1..];
    }
  }

  lemma {:induction false} OrderByPermutes<T>(key: T -> Key, desc: bool, rows: seq<T>)
    ensures multiset(OrderBy(key, desc, rows)) == multiset(rows)
    ensures |OrderBy(key, desc, rows)| == |rows|
  {
    if rows != [] {
      OrderByPermutes(key, desc, rows[1..]);
      InsertPermutes(key, desc, rows[0], OrderBy(key, desc, rows[1..]));
      assert rows == [rows[0]] + rows[1..];
    }
    SameLength(OrderBy(key, desc, rows), rows);
  }

  lemma SameLength<T>(a: seq<T>, b: seq<T>)
    requires multiset(a) == multiset(b)
    ensures |a| == |b|
  {
    assert |multiset(a)| == |a| && |multiset(b)| == |b|;
  }

  lemma Shared<T>(a: seq<T>, b: seq<T>, x: T) returns (i: nat)
    requires multiset(a) == multiset(b) && x in a
    ensures i < |b| && b[i] == x
  {
    assert x in multiset(a);
    assert x in multiset(b);
    i :| 0 <= i < |b| && b[i] == x;
  }

  lemma {:induction false} InsertKeepsOrder<T>(key: T -> Key, desc: bool, x: T, rows: seq<T>)
    requires Ordered(key, desc, rows)
    requires forall y :: y in rows ==> key(y) != key(x)
    ensures Ordered(key, desc, InsertInOrder(key, desc, x, rows))
  {
    if rows != [] && !Precedes(desc, key(x), key(rows[0])) {
      var rest := InsertInOrder(key, desc, x, rows[1..]);
      InsertKeepsOrder(key, desc, x, rows[1..]);
      InsertPermutes(key, desc, x, rows[1..]);
      assert key(rows[0]) != key(x);
      forall i | 0 <= i < |rest| ensures Precedes(desc, key(rows[0]), key(rest[i])) {
        var j := Shared(rest, [x] + rows[1..], rest[i]);
        assert j > 0 ==> rest[i] == rows[j];
      }
    }
  }

  /** With distinct keys the listing is strictly ordered. */
  lemma {:induction false} OrderByOrders<T>(key: T -> Key, desc: bool, rows: seq<T>)
    requires DistinctKeys(key, rows)
    ensures Ordered(key, desc, OrderBy(key, desc, rows))
  {
    if rows != [] {
      var rest := OrderBy(key, desc, rows[1..]);
      OrderByOrders(key, desc, rows[1..]);
      OrderByPermutes(key, desc, rows[1..]);
      forall y | y in rest ensures key(y) != key(rows[0]) {
        var j := Shared(rest, rows[1..], y);
        assert rows[j + 1] == y;
      }
      InsertKeepsOrder(key, desc, rows[0], rest);
    }
  }

  lemma SameHead<T>(key: T -> Key, desc: bool, a: seq<T>, b: seq<T>)
    requires multiset(a) == multiset(b) && a != [] && b != []
    requires Ordered(key, desc, a) && Ordered(key, desc, b)
    ensures a[0] == b[0]
  {
    var i := Shared(a, b, a[0]);
    var j := Shared(b, a, b[0]);
    assert i > 0 ==> Precedes(desc, key(b[0]), key(b[i]));
    assert j > 0 ==> Precedes(desc, key(a[0]), key(a[j]));
  }

  lemma TailContents<T>(a: seq<T>)
    requires a != []
    ensures multiset(a[1..]) == multiset(a) - multiset{a[0]}
  {
    assert a == [a[0]] + a[1..];
  }

  /** A strictly ordered arrangement of given rows is unique. */
  lemma {:induction false} OrderedIsUnique<T>(key: T -> Key, desc: bool, a: seq<T>, b: seq<T>)
    requires multiset(a) == multiset(b)
    requires Ordered(key, desc, a) && Ordered(key, desc, b)
    ensures a == b
  {
    SameLength(a, b);
    if a != [] {
      SameHead(key, desc, a, b);
      TailContents(a);
      TailContents(b);
      OrderedIsUnique(key, desc, a[1..], b[1..]);
      assert a == [a[0]] + a[1..] && b == [b[0]] + b[1..];
    }
  }
}
