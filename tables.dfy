/** The three statements the store issues against a table by primary key, over a table
    held as its rows in insertion order: `SELECT ... WHERE id = ?` (first row fetched),
    `UPDATE ... WHERE id = ?` and `DELETE ... WHERE id = ?`. Each is a loop over the rows,
    proved against a function that says which rows result. */
module Tables {
  import opened Wrappers

  /** The keys an AUTOINCREMENT counter hands out: the counter starts at 1, each key is at
      least 1 and below `next`, and keys strictly increase in insertion order, so no two
      rows share one. */
  predicate KeysValid<T>(rows: seq<T>, key: T -> int, next: int) {
    1 <= next
    && (forall i :: 0 <= i < |rows| ==> 1 <= key(rows[i]) < next)
    && (forall i, j :: 0 <= i < j < |rows| ==> key(rows[i]) < key(rows[j]))
  }

  /** Appending a row under the counter's key, then advancing the counter, keeps keys valid. */
  lemma KeysAppend<T>(rows: seq<T>, key: T -> int, next: int, x: T)
    requires KeysValid(rows, key, next) && key(x) == next
    ensures KeysValid(rows + [x], key, next + 1)
  {
  }

  /** The first row whose key is `id`, if any. */
  function FindByKey<T>(rows: seq<T>, key: T -> int, id: int): (r: Option<T>)
    ensures r.Some? ==> r.value in rows && key(r.value) == id
    ensures r.None? <==> forall i :: 0 <= i < |rows| ==> key(rows[i]) != id
  {
    if rows == [] then None
    else if key(rows[0]) == id then Some(rows[0])
    else FindByKey(rows[1..], key, id)
  }

  /** With unique keys, looking up a row's key finds that row. */
  lemma FindUnique<T>(rows: seq<T>, key: T -> int, next: int, k: nat)
    requires KeysValid(rows, key, next) && k < |rows|
    ensures FindByKey(rows, key, key(rows[k])) == Some(rows[k])
  {
    var r := FindByKey(rows, key, key(rows[k]));
    var j :| 0 <= j < |rows| && rows[j] == r.value;
  }

  /** `SELECT ... WHERE id = ?` followed by `fetchone()`. */
  method Lookup<T>(rows: seq<T>, key: T -> int, id: int) returns (r: Option<T>)
    ensures r == FindByKey(rows, key, id)
  {
    var i := 0;
    while i < |rows| && key(rows[i]) != id
      invariant 0 <= i <= |rows|
      invariant FindByKey(rows[i..], key, id) == FindByKey(rows, key, id)
    {
      assert rows[i..][1..] == rows[i + 1..];
      i := i + 1;
    }
    r := if i < |rows| then Some(rows[i]) else None;
  }

  /** The table after `UPDATE ... WHERE id = ?`: `f` applied to every row keyed `id`. */
  function Updated<T>(rows: seq<T>, key: T -> int, id: int, f: T -> T): (r: seq<T>)
    ensures |r| == |rows|
  {
    seq(|rows|, i requires 0 <= i < |rows| => if key(rows[i]) == id then f(rows[i]) else rows[i])
  }

  method UpdateWhere<T>(rows: seq<T>, key: T -> int, id: int, f: T -> T) returns (out: seq<T>)
    ensures out == Updated(rows, key, id, f)
  {
    out := [];
    var i := 0;
    while i < |rows|
      invariant 0 <= i <= |rows| && |out| == i
      invariant forall k :: 0 <= k < i ==> out[k] == if key(rows[k]) == id then f(rows[k]) else rows[k]
    {
      out := out + [if key(rows[i]) == id then f(rows[i]) else rows[i]];
      i := i + 1;
    }
  }

  /** An update of a key no row has changes nothing. */
  lemma UpdatedUnknown<T>(rows: seq<T>, key: T -> int, id: int, f: T -> T)
    requires forall i :: 0 <= i < |rows| ==> key(rows[i]) != id
    ensures Updated(rows, key, id, f) == rows
  {
  }

  /** With unique keys, the update changes exactly the one row carrying the key. */
  lemma UpdatedAt<T>(rows: seq<T>, key: T -> int, next: int, k: nat, f: T -> T)
    requires KeysValid(rows, key, next) && k < |rows|
    ensures Updated(rows, key, key(rows[k]), f) == rows[k := f(rows[k])]
  {
  }

  /** An update that keeps keys keeps the table's keys valid. */
  lemma UpdatedKeysValid<T>(rows: seq<T>, key: T -> int, next: int, id: int, f: T -> T)
    requires KeysValid(rows, key, next)
    requires forall x :: key(f(x)) == key(x)
    ensures KeysValid(Updated(rows, key, id, f), key, next)
  {
  }

  /** Repeating an update whose row change is idempotent changes nothing further. */
  lemma UpdatedIdempotent<T>(rows: seq<T>, key: T -> int, id: int, f: T -> T)
    requires forall x :: key(f(x)) == key(x) && f(f(x)) == f(x)
    ensures Updated(Updated(rows, key, id, f), key, id, f) == Updated(rows, key, id, f)
  {
  }

  /** A lookup after a key-preserving update finds the same row, updated if it was targeted. */
  lemma {:induction false} FindUpdated<T>(rows: seq<T>, key: T -> int, id: int, target: int, f: T -> T)
    requires forall x :: key(f(x)) == key(x)
    ensures FindByKey(Updated(rows, key, target, f), key, id)
      == match FindByKey(rows, key, id)
         case Some(r) => Some(if key(r) == target then f(r) else r)
         case None => None
  {
    if rows != [] {
      assert Updated(rows, key, target, f)[1..] == Updated(rows[1..], key, target, f);
      FindUpdated(rows[1..], key, id, target, f);
    }
  }

  /** The table after `DELETE ... WHERE id = ?`: the rows keyed otherwise, in their order. */
  function Without<T>(rows: seq<T>, key: T -> int, id: int): (r: seq<T>)
    ensures |r| <= |rows|
    ensures forall i :: 0 <= i < |r| ==> r[i] in rows
    ensures forall i :: 0 <= i < |rows| && key(rows[i]) != id ==> rows[i] in r
    ensures forall i :: 0 <= i < |r| ==> key(r[i]) != id
  {
    if rows == [] then []
    else (if key(rows[0]) == id then [] else [rows[0]]) + Without(rows[1..], key, id)
  }

  method DeleteWhere<T>(rows: seq<T>, key: T -> int, id: int) returns (kept: seq<T>)
    ensures kept == Without(rows, key, id)
  {
    kept := [];
    var i := 0;
    while i < |rows|
      invariant 0 <= i <= |rows|
      invariant kept == Without(rows[..i], key, id)
    {
      assert rows[..i + 1] == rows[..i] + [rows[i]];
      WithoutAppend(rows[..i], key, id, rows[i]);
      if key(rows[i]) != id {
        kept := kept + [rows[i]];
      }
      i := i + 1;
    }
    assert rows[..i] == rows;
  }

  /** Deleting from a table with one more row at the end deletes from the rest and keeps
      that row unless it has the key. */
  lemma {:induction false} WithoutAppend<T>(rows: seq<T>, key: T -> int, id: int, x: T)
    ensures Without(rows + [x], key, id) == Without(rows, key, id) + (if key(x) == id then [] else [x])
  {
    if rows != [] {
      assert (rows + [x])[1..] == rows[1..] + [x];
      WithoutAppend(rows[1..], key, id, x);
    }
  }

  /** Deleting a key no row has changes nothing. */
  lemma {:induction false} WithoutUnknown<T>(rows: seq<T>, key: T -> int, id: int)
    requires forall i :: 0 <= i < |rows| ==> key(rows[i]) != id
    ensures Without(rows, key, id) == rows
  {
    if rows != [] {
      WithoutUnknown(rows[1..], key, id);
    }
  }

  /** A delete keeps the remaining keys valid, in their original order. */
  lemma {:induction false} WithoutKeysValid<T>(rows: seq<T>, key: T -> int, next: int, id: int)
    requires KeysValid(rows, key, next)
    ensures KeysValid(Without(rows, key, id), key, next)
  {
    if rows != [] {
      var tail := rows[1..];
      KeysValidTail(rows, key, next);
      WithoutKeysValid(tail, key, next, id);
      var rest := Without(tail, key, id);
      assert Without(rows, key, id) == (if key(rows[0]) == id then [] else [rows[0]]) + rest;
      if key(rows[0]) != id {
        WithoutAbove(tail, key, id, key(rows[0]));
        KeysValidCons(rows[0], rest, key, next);
      }
    }
  }

  lemma KeysValidTail<T>(rows: seq<T>, key: T -> int, next: int)
    requires KeysValid(rows, key, next) && rows != []
    ensures KeysValid(rows[1..], key, next)
    ensures forall j :: 0 <= j < |rows[1..]| ==> key(rows[0]) < key(rows[1..][j])
  {
    forall i | 0 <= i < |rows[1..]| ensures rows[1..][i] == rows[i + 1] {}
  }

  lemma KeysValidCons<T>(x: T, rest: seq<T>, key: T -> int, next: int)
    requires KeysValid(rest, key, next) && 1 <= key(x) < next
    requires forall j :: 0 <= j < |rest| ==> key(x) < key(rest[j])
    ensures KeysValid([x] + rest, key, next)
  {
    var all := [x] + rest;
    forall i | 0 <= i < |all| ensures 1 <= key(all[i]) < next {
      if i > 0 { assert all[i] == rest[i - 1]; }
    }
    forall i, j | 0 <= i < j < |all| ensures key(all[i]) < key(all[j]) {
      assert all[j] == rest[j - 1];
      if i > 0 { assert all[i] == rest[i - 1]; }
    }
  }

  lemma WithoutAbove<T>(rows: seq<T>, key: T -> int, id: int, bound: int)
    requires forall j :: 0 <= j < |rows| ==> bound < key(rows[j])
    ensures forall j :: 0 <= j < |Without(rows, key, id)| ==> bound < key(Without(rows, key, id)[j])
  {
    var rest := Without(rows, key, id);
    forall j | 0 <= j < |rest| ensures bound < key(rest[j]) {
      assert rest[j] in rows;
      var m :| 0 <= m < |rows| && rows[m] == rest[j];
    }
  }
}
