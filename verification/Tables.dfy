/**
 A table from text to value, kept as rows in strictly ascending key order, after src/table.rs.
 The first half is the meaning of a list of rows (`Get`, `Put`, `Without`); the class `Table`
 changes its rows in place and is proved against that meaning.
 */
module Tables {
  import opened Basics

  datatype Row<+V> = Row(key: Text, val: V)
  type Rows<+V> = seq<Row<V>>

  // ---------- The order of keys: bytes, lexicographically ----------

  predicate Less(a: Text, b: Text)
    decreases |a|
  {
    if b == [] then false
    else if a == [] then true
    else a[0] < b[0] || (a[0] == b[0] && Less(a[1..], b[1..]))
  }

  lemma {:induction false} LessIrreflexive(a: Text)
    ensures !Less(a, a)
    decreases |a|
  {
    if a != [] {
      LessIrreflexive(a[1..]);
    }
  }

  lemma {:induction false} LessTransitive(a: Text, b: Text, c: Text)
    requires Less(a, b) && Less(b, c)
    ensures Less(a, c)
    decreases |a|
  {
    if a != [] && a[0] == b[0] == c[0] {
      LessTransitive(a[1..], b[1..], c[1..]);
    }
  }

  lemma {:induction false} LessTotal(a: Text, b: Text)
    ensures Less(a, b) || a == b || Less(b, a)
    decreases |a|
  {
    if a != [] && b != [] && a[0] == b[0] {
      LessTotal(a[1..], b[1..]);
      assert a == [a[0]] + a[1..] && b == [b[0]] + b[1..];
    }
  }

  /** Bytewise order: the first difference decides, and a proper beginning comes first. */
  lemma {:induction false} LessMeaning(a: Text, b: Text)
    ensures Less(a, b)
            <==> exists n :: && 0 <= n <= |a| && n < |b| && a[..n] == b[..n] && (n < |a| ==> a[n] < b[n])
    decreases |a|
  {
    if a != [] && b != [] {
      LessMeaning(a[1..], b[1..]);
      if a[0] == b[0] {
        if n :| && 0 <= n <= |a[1..]| && n < |b[1..]| && a[1..][..n] == b[1..][..n]
                && (n < |a[1..]| ==> a[1..][n] < b[1..][n]) {
          assert a[..n + 1] == [a[0]] + a[1..][..n] && b[..n + 1] == [b[0]] + b[1..][..n];
          assert n + 1 < |a| ==> a[n + 1] < b[n + 1];
        }
        if n :| 0 <= n <= |a| && n < |b| && a[..n] == b[..n] && (n < |a| ==> a[n] < b[n]) {
          if n > 0 {
            assert a[1..][..n - 1] == a[..n][1..] && b[1..][..n - 1] == b[..n][1..];
            assert n < |a| ==> a[1..][n - 1] < b[1..][n - 1];
          }
        }
      } else {
        assert a[..0] == b[..0];
        if n :| 0 <= n <= |a| && n < |b| && a[..n] == b[..n] && (n < |a| ==> a[n] < b[n]) {
          assert n > 0 ==> a[0] == a[..n][0] == b[..n][0] == b[0];
        }
      }
    } else if b != [] {
      assert a[..0] == b[..0];
    }
  }

  // ---------- The meaning of rows ----------

  /** The invariant of a table: keys strictly ascending. */
  ghost predicate Sorted<V>(rows: Rows<V>) {
    forall i, j :: 0 <= i < j < |rows| ==> Less(rows[i].key, rows[j].key)
  }

  function Get<V>(rows: Rows<V>, key: Text): Option<V> {
    if rows == [] then None
    else if rows[0].key == key then Some(rows[0].val)
    else Get(rows[1..], key)
  }

  function Put<V>(rows: Rows<V>, key: Text, v: V): Rows<V> {
    if rows == [] || Less(key, rows[0].key) then [Row(key, v)] + rows
    else if rows[0].key == key then [Row(key, v)] + rows[1..]
    else [rows[0]] + Put(rows[1..], key, v)
  }

  function Without<V>(rows: Rows<V>, key: Text): Rows<V> {
    if rows == [] then []
    else if rows[0].key == key then rows[1..]
    else [rows[0]] + Without(rows[1..], key)
  }

  /** `i` is where `key` is, or where it would have to be inserted. */
  ghost predicate At<V>(rows: Rows<V>, key: Text, found: bool, i: nat) {
    && i <= |rows|
    && (forall k :: 0 <= k < i ==> Less(rows[k].key, key))
    && (if found then i < |rows| && rows[i].key == key
        else forall k :: i <= k < |rows| ==> Less(key, rows[k].key))
  }

  /** A key that lies strictly before every key of `rows` is not among them. */
  lemma {:induction false} GetBefore<V>(rows: Rows<V>, key: Text)
    requires forall k :: 0 <= k < |rows| ==> Less(key, rows[k].key)
    ensures Get(rows, key) == None
  {
    if rows != [] {
      LessIrreflexive(key);
      GetBefore(rows[1..], key);
    }
  }

  /** What a position found by binary search says about `Get`, `Put` and `Without`. */
  lemma AtMeaning<V>(rows: Rows<V>, key: Text, found: bool, i: nat, v: V)
    requires At(rows, key, found, i)
    ensures Get(rows, key) == if found then Some(rows[i].val) else None
    ensures Put(rows, key, v) == if found then rows[i := Row(key, v)] else rows[..i] + [Row(key, v)] + rows[i..]
    ensures Without(rows, key) == if found then rows[..i] + rows[i + 1..] else rows
  {
    if found {
      FoundMeaning(rows, key, i, v);
    } else {
      AbsentMeaning(rows, key, i, v);
    }
  }

  lemma SetBehind<T>(s: seq<T>, i: nat, x: T)
    requires 0 < i < |s|
    ensures s[i := x] == [s[0]] + s[1..][i - 1 := x]
  {
  }

  lemma DropBehind<T>(s: seq<T>, i: nat)
    requires 0 < i < |s|
    ensures s[..i] + s[i + 1..] == [s[0]] + (s[1..][..i - 1] + s[1..][i..])
  {
  }

  lemma {:induction false} FoundMeaning<V>(rows: Rows<V>, key: Text, i: nat, v: V)
    requires At(rows, key, true, i)
    ensures Get(rows, key) == Some(rows[i].val)
    ensures Put(rows, key, v) == rows[i := Row(key, v)]
    ensures Without(rows, key) == rows[..i] + rows[i + 1..]
    decreases i
  {
    LessIrreflexive(key);
    hide Less;
    if i > 0 {
      LessAsymmetric(rows[0].key, key);
      var rest := rows[1..];
      FoundMeaning(rest, key, i - 1, v);
      SetBehind(rows, i, Row(key, v));
      DropBehind(rows, i);
    } else {
      assert rows[0 := Row(key, v)] == [Row(key, v)] + rows[1..];
    }
  }

  lemma {:induction false} AbsentMeaning<V>(rows: Rows<V>, key: Text, i: nat, v: V)
    requires At(rows, key, false, i)
    ensures Get(rows, key) == None
    ensures Put(rows, key, v) == rows[..i] + [Row(key, v)] + rows[i..]
    ensures Without(rows, key) == rows
    decreases i
  {
    if i > 0 {
      LessAsymmetric(rows[0].key, key);
      AbsentMeaning(rows[1..], key, i - 1, v);
    } else {
      GetBefore(rows, key);
    }
    WithoutMissing(rows, key);
  }

  lemma GetAt<V>(rows: Rows<V>, key: Text, found: bool, i: nat)
    requires At(rows, key, found, i)
    ensures Get(rows, key) == if found then Some(rows[i].val) else None
  {
    if rows == [] {
    } else {
      AtMeaning(rows, key, found, i, rows[0].val);
    }
  }

  lemma LessAsymmetric(a: Text, b: Text)
    requires Less(a, b)
    ensures a != b && !Less(b, a)
  {
    LessIrreflexive(a);
    if Less(b, a) {
      LessTransitive(a, b, a);
    }
  }

  lemma {:induction false} WithoutMissing<V>(rows: Rows<V>, key: Text)
    requires Get(rows, key) == None
    ensures Without(rows, key) == rows
    decreases |rows|
  {
    if rows != [] {
      WithoutMissing(rows[1..], key);
      assert rows == [rows[0]] + rows[1..];
    }
  }

  /** A key is found exactly when it is in a row, and then with that row's value. */
  lemma {:induction false} GetFinds<V>(rows: Rows<V>, key: Text)
    ensures Get(rows, key).Some? <==> exists i :: 0 <= i < |rows| && rows[i].key == key
    ensures Get(rows, key).Some? ==> exists i :: 0 <= i < |rows| && rows[i] == Row(key, Get(rows, key).value)
    decreases |rows|
  {
    if rows != [] {
      if rows[0].key == key {
        assert rows[0] == Row(key, rows[0].val);
      } else {
        GetFinds(rows[1..], key);
        if Get(rows[1..], key).Some? {
          var i :| 0 <= i < |rows[1..]| && rows[1..][i] == Row(key, Get(rows[1..], key).value);
          assert rows[i + 1] == Row(key, Get(rows, key).value);
        } else {
          assert forall i :: 1 <= i < |rows| ==> rows[i] == rows[1..][i - 1];
        }
      }
    }
  }

  /** In a sorted table every row is the one found under its key. */
  lemma {:induction false} GetOfRow<V>(rows: Rows<V>, i: nat)
    requires Sorted(rows) && i < |rows|
    ensures Get(rows, rows[i].key) == Some(rows[i].val)
    decreases |rows|
  {
    if i > 0 {
      LessIrreflexive(rows[0].key);
      assert Less(rows[0].key, rows[i].key);
      GetOfRow(rows[1..], i - 1);
    }
  }

  /** A put changes the value of its own key and of no other. */
  lemma {:induction false} GetPut<V>(rows: Rows<V>, key: Text, v: V, other: Text)
    ensures Get(Put(rows, key, v), other) == if other == key then Some(v) else Get(rows, other)
    decreases |rows|
  {
    if rows == [] || Less(key, rows[0].key) {
      assert Put(rows, key, v)[1..] == rows;
    } else if rows[0].key == key {
      assert Put(rows, key, v)[1..] == rows[1..];
    } else {
      GetPut(rows[1..], key, v, other);
      assert Put(rows, key, v)[1..] == Put(rows[1..], key, v);
    }
  }

  lemma {:induction false} PutKeys<V>(rows: Rows<V>, key: Text, v: V)
    ensures forall r :: r in Put(rows, key, v) ==> r == Row(key, v) || r in rows
    decreases |rows|
  {
    if rows != [] && !Less(key, rows[0].key) && rows[0].key != key {
      PutKeys(rows[1..], key, v);
    }
  }

  lemma {:induction false} PutSorted<V>(rows: Rows<V>, key: Text, v: V)
    requires Sorted(rows)
    ensures Sorted(Put(rows, key, v))
    decreases |rows|
  {
    var put := Put(rows, key, v);
    if rows == [] {
    } else if Less(key, rows[0].key) {
      forall j | 0 < j < |rows| ensures Less(key, rows[j].key) {
        LessTransitive(key, rows[0].key, rows[j].key);
      }
    } else if rows[0].key == key {
    } else {
      LessTotal(key, rows[0].key);
      PutSorted(rows[1..], key, v);
      PutKeys(rows[1..], key, v);
      forall j | 0 < j < |put| ensures Less(put[0].key, put[j].key) {
        assert put[j] in Put(rows[1..], key, v);
      }
    }
  }

  lemma {:induction false} WithoutMeaning<V>(rows: Rows<V>, key: Text, other: Text)
    requires Sorted(rows)
    ensures Get(Without(rows, key), other) == if other == key then None else Get(rows, other)
    ensures forall r :: r in Without(rows, key) ==> r in rows
    ensures Sorted(Without(rows, key))
    decreases |rows|
  {
    if rows != [] {
      if rows[0].key == key {
        GetBefore(rows[1..], key);
      } else {
        WithoutMeaning(rows[1..], key, other);
        var rest := Without(rows[1..], key);
        assert ([rows[0]] + rest)[1..] == rest;
        forall j | 0 <= j < |rest| ensures Less(rows[0].key, rest[j].key) {
          assert rest[j] in rows[1..];
        }
      }
    }
  }

  /** The representation is canonical: sorted tables with the same contents are the same rows. */
  lemma {:induction false} Canonical<V>(a: Rows<V>, b: Rows<V>)
    requires Sorted(a) && Sorted(b)
    requires forall key :: Get(a, key) == Get(b, key)
    ensures a == b
    decreases |a|
  {
    if a == [] || b == [] {
      var keys := if a != [] then [a[0].key] else if b != [] then [b[0].key] else [];
      if keys != [] {
        var _ := Get(a, keys[0]) == Get(b, keys[0]);
      }
    } else {
      SameFirstKey(a, b);
      GetBefore(a[1..], a[0].key);
      GetBefore(b[1..], b[0].key);
      assert Get(a, a[0].key) == Get(b, a[0].key);
      forall key ensures Get(a[1..], key) == Get(b[1..], key) {
        assert Get(a, key) == Get(b, key);
      }
      Canonical(a[1..], b[1..]);
      assert a == [a[0]] + a[1..] && b == [b[0]] + b[1..];
    }
  }

  lemma SameFirstKey<V>(a: Rows<V>, b: Rows<V>)
    requires Sorted(a) && Sorted(b) && a != [] && b != []
    requires forall key :: Get(a, key) == Get(b, key)
    ensures a[0].key == b[0].key
  {
    LessTotal(a[0].key, b[0].key);
    var _ := Get(a, a[0].key) == Get(b, a[0].key);
    if Less(a[0].key, b[0].key) {
      FirstIsLeast(b, a[0].key);
    } else if Less(b[0].key, a[0].key) {
      FirstIsLeast(a, b[0].key);
    }
  }

  lemma FirstIsLeast<V>(rows: Rows<V>, key: Text)
    requires Sorted(rows) && rows != [] && Less(key, rows[0].key)
    ensures Get(rows, key) == None
  {
    forall k | 0 < k < |rows| ensures Less(key, rows[k].key) {
      LessTransitive(key, rows[0].key, rows[k].key);
    }
    GetBefore(rows, key);
  }

  // ---------- Reading ----------

  /** Binary search: the position of `key`, or the one where inserting it keeps the order. */
  method FindIn<V>(rows: Rows<V>, key: Text) returns (found: bool, i: nat)
    requires Sorted(rows)
    ensures At(rows, key, found, i)
  {
    var lo, hi := 0, |rows|;
    while lo < hi
      invariant 0 <= lo <= hi <= |rows|
      invariant forall k :: 0 <= k < lo ==> Less(rows[k].key, key)
      invariant forall k :: hi <= k < |rows| ==> Less(key, rows[k].key)
    {
      var mid := lo + (hi - lo) / 2;
      if rows[mid].key == key {
        return true, mid;
      }
      LessTotal(rows[mid].key, key);
      if Less(rows[mid].key, key) {
        forall k | 0 <= k < mid ensures Less(rows[k].key, key) {
          LessTransitive(rows[k].key, rows[mid].key, key);
        }
        lo := mid + 1;
      } else {
        forall k | mid < k < |rows| ensures Less(key, rows[k].key) {
          LessTransitive(key, rows[mid].key, rows[k].key);
        }
        hi := mid;
      }
    }
    return false, lo;
  }

  method LookupIn<V>(rows: Rows<V>, key: Text) returns (v: Option<V>)
    requires Sorted(rows)
    ensures v == Get(rows, key)
  {
    var found, i := FindIn(rows, key);
    GetAt(rows, key, found, i);
    return if found then Some(rows[i].val) else None;
  }

  // ---------- The table that changes in place ----------

  class Table<V> {
    var rows: Rows<V>

    constructor ()
      ensures rows == [] && Sorted(rows)
    {
      rows := [];
    }

    method Find(key: Text) returns (found: bool, i: nat)
      requires Sorted(rows)
      ensures At(rows, key, found, i)
    {
      found, i := FindIn(rows, key);
    }

    method Lookup(key: Text) returns (v: Option<V>)
      requires Sorted(rows)
      ensures v == Get(rows, key)
    {
      v := LookupIn(rows, key);
    }

    /** Sets `value` under `key` and gives back the value that was there. */
    method Insert(key: Text, value: V) returns (was: Option<V>)
      requires Sorted(rows)
      modifies this
      ensures rows == Put(old(rows), key, value) && Sorted(rows)
      ensures was == Get(old(rows), key)
    {
      var found, i := Find(key);
      AtMeaning(rows, key, found, i, value);
      PutSorted(rows, key, value);
      if found {
        was := Some(rows[i].val);
        rows := rows[i := Row(rows[i].key, value)];
      } else {
        was := None;
        rows := rows[..i] + [Row(key, value)] + rows[i..];
      }
    }

    method Remove(key: Text) returns (was: Option<V>)
      requires Sorted(rows)
      modifies this
      ensures rows == Without(old(rows), key) && Sorted(rows)
      ensures was == Get(old(rows), key)
    {
      var found, i := Find(key);
      WithoutMeaning(rows, key, key);
      GetAt(rows, key, found, i);
      if found {
        AtMeaning(rows, key, found, i, rows[i].val);
        was := Some(rows[i].val);
        rows := rows[..i] + rows[i + 1..];
      } else {
        WithoutMissing(rows, key);
        was := None;
      }
    }
  }
}
