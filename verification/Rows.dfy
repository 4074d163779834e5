/** Tables of keyed rows without a uniqueness constraint, as the statements of the server change them. */
module Rows {

  datatype Row<K, V> = Row(key: K, value: V)

  predicate HasRow<K(==), V>(rows: seq<Row<K, V>>, key: K) {
    rows != [] && (rows[|rows| - 1].key == key || HasRow(rows[..|rows| - 1], key))
  }

  /** At most one row per key. */
  predicate Distinct<K(==), V>(rows: seq<Row<K, V>>) {
    rows == [] || (Distinct(rows[..|rows| - 1]) && !HasRow(rows[..|rows| - 1], rows[|rows| - 1].key))
  }

  /** UPDATE changes every row of the key. */
  function Modify<K(==), V>(rows: seq<Row<K, V>>, key: K, f: V -> V): seq<Row<K, V>> {
    if rows == [] then []
    else
      var r := rows[|rows| - 1];
      Modify(rows[..|rows| - 1], key, f) + [if r.key == key then Row(key, f(r.value)) else r]
  }

  /** DELETE drops every row of the key. */
  function Delete<K(==), V>(rows: seq<Row<K, V>>, key: K): seq<Row<K, V>> {
    if rows == [] then []
    else Delete(rows[..|rows| - 1], key) + (if rows[|rows| - 1].key == key then [] else [rows[|rows| - 1]])
  }

  /** What adding the rows one by one makes, where a second row of a key changes nothing. */
  function Contents<K(!new), V>(rows: seq<Row<K, V>>): (m: map<K, V>)
    ensures forall k :: k in m <==> HasRow(rows, k)
  {
    if rows == [] then map[]
    else
      var m, r := Contents(rows[..|rows| - 1]), rows[|rows| - 1];
      if r.key in m then m else m[r.key := r.value]
  }

  lemma InsertRow<K(!new), V>(rows: seq<Row<K, V>>, key: K, v: V)
    requires Distinct(rows) && key !in Contents(rows)
    ensures Distinct(rows + [Row(key, v)]) && Contents(rows + [Row(key, v)]) == Contents(rows)[key := v]
  {
    assert (rows + [Row(key, v)])[..|rows|] == rows;
  }

  lemma LastRow<K(!new), V>(rows: seq<Row<K, V>>, r: Row<K, V>)
    ensures Contents(rows + [r]) == if r.key in Contents(rows) then Contents(rows) else Contents(rows)[r.key := r.value]
    ensures Distinct(rows + [r]) <==> Distinct(rows) && r.key !in Contents(rows)
  {
    assert (rows + [r])[..|rows|] == rows;
  }

  lemma {:induction false} ModifyRow<K(!new), V>(rows: seq<Row<K, V>>, key: K, f: V -> V)
    requires Distinct(rows)
    ensures Distinct(Modify(rows, key, f))
    ensures Contents(Modify(rows, key, f)) == if key in Contents(rows) then Contents(rows)[key := f(Contents(rows)[key])]
                                              else Contents(rows)
  {
    if rows != [] {
      var init, r := rows[..|rows| - 1], rows[|rows| - 1];
      ModifyRow(init, key, f);
      LastRow(Modify(init, key, f), if r.key == key then Row(key, f(r.value)) else r);
    }
  }

  lemma SetAndRemoved<K, V>(m: map<K, V>, k: K, v: V, key: K)
    ensures m[k := v] - {key} == if k == key then m - {key} else (m - {key})[k := v]
  {
  }

  lemma {:induction false} DeleteRow<K(!new), V>(rows: seq<Row<K, V>>, key: K)
    requires Distinct(rows)
    ensures Distinct(Delete(rows, key)) && Contents(Delete(rows, key)) == Contents(rows) - {key}
  {
    if rows != [] {
      var init, r := rows[..|rows| - 1], rows[|rows| - 1];
      DeleteRow(init, key);
      SetAndRemoved(Contents(init), r.key, r.value, key);
      if r.key != key { LastRow(Delete(init, key), r); }
      else { assert Delete(init, key) + [] == Delete(init, key); }
    }
  }
}
