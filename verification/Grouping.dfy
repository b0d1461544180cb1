/** The Map-of-arrays loops: rows gathered by key, in their reading order. */
module Grouping {
  /** The values of one key, in order. */
  function ValuesOf<K(==), V>(rows: seq<(K, V)>, k: K): seq<V> {
    if rows == [] then []
    else ValuesOf(rows[..|rows| - 1], k) + (if rows[|rows| - 1].0 == k then [rows[|rows| - 1].1] else [])
  }

  /** One more row: its value joins the list of its key, which starts empty. */
  function Add<K(==), V>(groups: map<K, seq<V>>, key: K, value: V): map<K, seq<V>> {
    groups[key := (if key in groups then groups[key] else []) + [value]]
  }

  function Grouped<K(==), V>(rows: seq<(K, V)>): map<K, seq<V>> {
    if rows == [] then map[]
    else Add(Grouped(rows[..|rows| - 1]), rows[|rows| - 1].0, rows[|rows| - 1].1)
  }

  method GroupByKey<K(==), V>(rows: seq<(K, V)>) returns (groups: map<K, seq<V>>)
    ensures groups == Grouped(rows)
  {
    groups := map[];
    assert rows[..0] == [];
    for i := 0 to |rows|
      invariant groups == Grouped(rows[..i])
    {
      assert rows[..i + 1][..i] == rows[..i];
      var (key, value) := rows[i];
      var list := if key in groups then groups[key] else [];
      groups := groups[key := list + [value]];
    }
    assert rows[..|rows|] == rows;
  }

  /** Every row is in the group of its key, in order, and there are no other groups. */
  lemma {:induction false} GroupsAreComplete<K, V>(rows: seq<(K, V)>, k: K)
    ensures k in Grouped(rows) <==> ValuesOf(rows, k) != []
    ensures k in Grouped(rows) ==> Grouped(rows)[k] == ValuesOf(rows, k)
  {
    if rows != [] {
      GroupsAreComplete(rows[..|rows| - 1], k);
    }
  }
}
