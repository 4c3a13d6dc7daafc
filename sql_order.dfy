/** The store side of a listing query: how `ORDER BY <column> ASC|DESC` ranks
    column values, a sort that realises it, and `OFFSET ... LIMIT ...`. */
module SqlOrder {

  /** The range of the store's INTEGER values; a bound parameter outside it
      cannot be converted and the query raises. */
  const MinInt64: int := -0x8000_0000_0000_0000
  const MaxInt64: int := 0x7FFF_FFFF_FFFF_FFFF

  predicate FitsInt64(n: int) {
    MinInt64 <= n <= MaxInt64
  }

  /** A column value as the store compares it. */
  datatype Value = Null | Integer(n: int) | Text(s: string)

  /** Text order of the BINARY collation: code point by code point, a proper prefix first. */
  predicate TextLe(a: string, b: string)
    decreases |a|
  {
    a == [] || (b != [] && (a[0] < b[0] || (a[0] == b[0] && TextLe(a[1..], b[1..]))))
  }

  /** Ascending order of values: NULL first, then numbers, then text. */
  predicate ValueLe(a: Value, b: Value) {
    match a
    case Null => true
    case Integer(x) => (match b case Null => false case Integer(y) => x <= y case Text(_) => true)
    case Text(x) => b.Text? && TextLe(x, b.s)
  }

  lemma {:induction false} TextLeTotal(a: string, b: string)
    ensures TextLe(a, b) || TextLe(b, a)
    decreases |a|
  {
    if a != [] && b != [] && a[0] == b[0] {
      TextLeTotal(a[1..], b[1..]);
    }
  }

  lemma {:induction false} TextLeTransitive(a: string, b: string, c: string)
    requires TextLe(a, b) && TextLe(b, c)
    ensures TextLe(a, c)
    decreases |a|
  {
    if a != [] && a[0] == b[0] && b[0] == c[0] {
      TextLeTransitive(a[1..], b[1..], c[1..]);
    }
  }

  lemma ValueLeTotal(a: Value, b: Value)
    ensures ValueLe(a, b) || ValueLe(b, a)
  {
    if a.Text? && b.Text? {
      TextLeTotal(a.s, b.s);
    }
  }

  lemma ValueLeTransitive(a: Value, b: Value, c: Value)
    requires ValueLe(a, b) && ValueLe(b, c)
    ensures ValueLe(a, c)
  {
    if a.Text? && b.Text? && c.Text? {
      TextLeTransitive(a.s, b.s, c.s);
    }
  }

  /** Whether a row with key `a` may come before a row with key `b`. */
  predicate Precedes(a: Value, b: Value, descending: bool) {
    if descending then ValueLe(b, a) else ValueLe(a, b)
  }

  lemma PrecedesTotal(a: Value, b: Value, descending: bool)
    ensures Precedes(a, b, descending) || Precedes(b, a, descending)
  {
    ValueLeTotal(a, b);
  }

  lemma PrecedesTransitive(a: Value, b: Value, c: Value, descending: bool)
    requires Precedes(a, b, descending) && Precedes(b, c, descending)
    ensures Precedes(a, c, descending)
  {
    if descending {
      ValueLeTransitive(c, b, a);
    } else {
      ValueLeTransitive(a, b, c);
    }
  }

  /** `s` is ranked by `key` in the given direction. */
  ghost predicate Ordered<T>(s: seq<T>, key: T -> Value, descending: bool) {
    forall i, j :: 0 <= i < j < |s| ==> Precedes(key(s[i]), key(s[j]), descending)
  }

  function Insert<T>(x: T, s: seq<T>, key: T -> Value, descending: bool): (r: seq<T>)
    requires Ordered(s, key, descending)
    ensures Ordered(r, key, descending)
    ensures multiset(r) == multiset(s) + multiset{x}
  {
    if s == [] then [x]
    else if Precedes(key(x), key(s[0]), descending) then
      forall j | 0 <= j < |s| ensures Precedes(key(x), key(s[j]), descending) {
        if j > 0 { PrecedesTransitive(key(x), key(s[0]), key(s[j]), descending); }
      }
      assert s == [s[0]] + s[1..];
      [x] + s
    else
      var rest := Insert(x, s[1..], key, descending);
      PrecedesTotal(key(x), key(s[0]), descending);
      forall y | y in multiset(rest) ensures Precedes(key(s[0]), key(y), descending) {
        assert y == x || y in s[1..];
      }
      var r := [s[0]] + rest;
      forall i, j | 0 <= i < j < |r| ensures Precedes(key(r[i]), key(r[j]), descending) {
        if i == 0 {
          assert r[j] in multiset(rest);
        }
      }
      assert s == [s[0]] + s[1..];
      r
  }

  /** The rows of `s` ranked by `key`; rows with equal keys keep their input order. */
  function SortBy<T>(s: seq<T>, key: T -> Value, descending: bool): (r: seq<T>)
    ensures Ordered(r, key, descending)
    ensures multiset(r) == multiset(s)
  {
    if s == [] then []
    else
      assert s == [s[0]] + s[1..];
      Insert(s[0], SortBy(s[1..], key, descending), key, descending)
  }

  /** `OFFSET offset LIMIT limit`: at most `limit` rows, starting at position `offset`. */
  function OffsetLimit<T>(s: seq<T>, offset: nat, limit: nat): (r: seq<T>)
    ensures |r| == if offset >= |s| then 0 else if |s| - offset < limit then |s| - offset else limit
    ensures forall i :: 0 <= i < |r| ==> r[i] == s[offset + i]
    ensures forall x :: x in r ==> x in s
  {
    if offset >= |s| then []
    else if |s| - offset < limit then s[offset..]
    else s[offset..offset + limit]
  }
  /** Row `j` of a window is the row `j` places past its offset. */
  lemma OffsetLimitAt<T>(s: seq<T>, offset: nat, limit: nat, j: nat)
    requires j < limit && offset + j < |s|
    ensures j < |OffsetLimit(s, offset, limit)| && OffsetLimit(s, offset, limit)[j] == s[offset + j]
  {
  }


  /** A window of an ordered sequence is ordered. */
  lemma OffsetLimitOrdered<T>(s: seq<T>, offset: nat, limit: nat, key: T -> Value, descending: bool)
    requires Ordered(s, key, descending)
    ensures Ordered(OffsetLimit(s, offset, limit), key, descending)
  {
    var r := OffsetLimit(s, offset, limit);
    forall i, j | 0 <= i < j < |r| ensures Precedes(key(r[i]), key(r[j]), descending) {
      assert r[i] == s[offset + i] && r[j] == s[offset + j];
    }
  }
}
