/** Rows of a keyset list, their strict total order, and the sorted reading of a table. */
module RowOrder {
  import opened Options

  /** The two backing tables of a merged list, in the text order of their kind names. */
  datatype Side = Left | Right

  datatype Sort = Newest | Oldest

  /** What never changes about a row: its timestamp in microseconds, its identity, and its table. */
  datatype Row = Row(time: int, id: nat, side: Side)

  /** PostgreSQL row-wise `<` on (time, id, kind). */
  predicate KeyLess(a: Row, b: Row) {
    || a.time < b.time
    || (a.time == b.time && (a.id < b.id || (a.id == b.id && a.side.Left? && b.side.Right?)))
  }

  /** Whether a comes before b in the requested direction. */
  predicate Before(sort: Sort, a: Row, b: Row) {
    if sort.Oldest? then KeyLess(a, b) else KeyLess(b, a)
  }

  /** The primary keys: one row per table and identity. */
  ghost predicate Keyed(rows: set<Row>) {
    forall a, b :: a in rows && b in rows && a.side == b.side && a.id == b.id ==> a == b
  }

  ghost predicate Ascending(sort: Sort, q: seq<Row>) {
    forall i, j :: 0 <= i < j < |q| ==> Before(sort, q[i], q[j])
  }

  ghost function Elems<T>(q: seq<T>): set<T> {
    set x | x in q
  }

  ghost predicate IsFirst(sort: Sort, m: Row, rows: set<Row>) {
    m in rows && forall x :: x in rows && x != m ==> Before(sort, m, x)
  }

  lemma {:induction false} HasFirst(sort: Sort, rows: set<Row>)
    requires rows != {} && Keyed(rows)
    ensures exists m :: IsFirst(sort, m, rows)
    decreases |rows|
  {
    var r :| r in rows;
    var rest := rows - {r};
    if rest == {} {
      assert rows == {r};
      assert IsFirst(sort, r, rows);
    } else {
      HasFirst(sort, rest);
      var m :| IsFirst(sort, m, rest);
      var winner := if Before(sort, r, m) then r else m;
      forall x | x in rows && x != winner
        ensures Before(sort, winner, x)
      {
        assert x == r || x in rest;
      }
      assert IsFirst(sort, winner, rows);
    }
  }

  lemma ConsAscending(sort: Sort, m: Row, rest: seq<Row>, rows: set<Row>)
    requires IsFirst(sort, m, rows) && Ascending(sort, rest) && Elems(rest) == rows - {m}
    ensures Ascending(sort, [m] + rest) && Elems([m] + rest) == rows
  {
    var q := [m] + rest;
    forall i, j | 0 <= i < j < |q|
      ensures Before(sort, q[i], q[j])
    {
      if i == 0 {
        assert rest[j - 1] in Elems(rest);
      }
    }
    assert Elems(q) == {m} + Elems(rest);
  }

  /** The rows of a set in order: what `ORDER BY` returns. */
  ghost function Sorted(sort: Sort, rows: set<Row>): (q: seq<Row>)
    requires Keyed(rows)
    ensures Ascending(sort, q) && Elems(q) == rows && |q| == |rows|
    decreases |rows|
  {
    if rows == {} then []
    else
      HasFirst(sort, rows);
      var m :| IsFirst(sort, m, rows);
      var rest := Sorted(sort, rows - {m});
      ConsAscending(sort, m, rest, rows);
      [m] + rest
  }

  lemma AscendingDistinct(sort: Sort, q: seq<Row>)
    requires Ascending(sort, q)
    ensures forall i, j :: 0 <= i < j < |q| ==> q[i] != q[j]
  {
  }

  lemma {:induction false} ElemsSize(sort: Sort, q: seq<Row>)
    requires Ascending(sort, q)
    ensures |Elems(q)| == |q|
  {
    if |q| > 0 {
      var front := q[..|q| - 1];
      ElemsSize(sort, front);
      assert q == front + [q[|q| - 1]];
      assert Elems(q) == Elems(front) + {q[|q| - 1]};
      assert q[|q| - 1] !in front;
    }
  }

  /** An ascending listing of a set is its sorted reading; there is no other. */
  lemma {:induction false} SortedUnique(sort: Sort, q: seq<Row>, rows: set<Row>)
    requires Keyed(rows) && Ascending(sort, q) && Elems(q) == rows
    ensures Sorted(sort, rows) == q
    decreases |q|
  {
    var s := Sorted(sort, rows);
    ElemsSize(sort, q);
    if |q| > 0 {
      assert q[0] in rows && s[0] in rows;
      assert s[0] in Elems(q) && q[0] in Elems(s);
      assert s[0] == q[0];
      var rest := rows - {q[0]};
      assert Elems(q[1..]) == rest by {
        AscendingDistinct(sort, q);
        assert q == [q[0]] + q[1..];
      }
      assert Elems(s[1..]) == rest by {
        AscendingDistinct(sort, s);
        assert s == [s[0]] + s[1..];
      }
      SortedUnique(sort, q[1..], rest);
      SortedUnique(sort, s[1..], rest);
      assert s == [s[0]] + s[1..] && q == [q[0]] + q[1..];
    }
  }

  /** What it is to be the first n rows of a set: everything left out comes later. */
  ghost predicate IsPrefix(sort: Sort, p: seq<Row>, rows: set<Row>, n: nat) {
    && Ascending(sort, p)
    && Elems(p) <= rows
    && |p| == Min(n, |rows|)
    && forall x, y :: x in rows && x !in p && y in p ==> Before(sort, y, x)
  }

  lemma TakeIsPrefix(sort: Sort, rows: set<Row>, n: nat)
    requires Keyed(rows)
    ensures IsPrefix(sort, Take(Sorted(sort, rows), n), rows, n)
  {
    var s := Sorted(sort, rows);
    var p := Take(s, n);
    forall x, y | x in rows && x !in p && y in p
      ensures Before(sort, y, x)
    {
      assert x in Elems(s);
      LaterRow(sort, s, |p|, x, y);
    }
  }

  lemma LaterRow(sort: Sort, s: seq<Row>, n: nat, x: Row, y: Row)
    requires Ascending(sort, s) && n <= |s|
    requires x in s && x !in s[..n] && y in s[..n]
    ensures Before(sort, y, x)
  {
    var i :| 0 <= i < |s| && s[i] == x;
    var j :| 0 <= j < n && s[..n][j] == y;
    assert forall k :: 0 <= k < n ==> s[..n][k] == s[k];
    assert i >= n;
  }

  lemma JoinAscending(sort: Sort, p: seq<Row>, tail: seq<Row>)
    requires Ascending(sort, p) && Ascending(sort, tail)
    requires forall x, y :: x in tail && y in p ==> Before(sort, y, x)
    ensures Ascending(sort, p + tail)
  {
    var q := p + tail;
    forall i, j | 0 <= i < j < |q|
      ensures Before(sort, q[i], q[j])
    {
      if i < |p| <= j {
        assert q[i] in p && q[j] in tail;
      }
    }
  }

  lemma PrefixIsTake(sort: Sort, p: seq<Row>, rows: set<Row>, n: nat)
    requires Keyed(rows) && IsPrefix(sort, p, rows, n)
    ensures Take(Sorted(sort, rows), n) == p
  {
    ElemsSize(sort, p);
    var others := rows - Elems(p);
    var tail := Sorted(sort, others);
    forall x, y | x in tail && y in p
      ensures Before(sort, y, x)
    {
      assert x in Elems(tail);
      assert x !in p by { assert x !in Elems(p); }
    }
    JoinAscending(sort, p, tail);
    assert Elems(p + tail) == Elems(p) + Elems(tail);
    SortedUnique(sort, p + tail, rows);
    if |p| < n {
      assert others == {} by { SizeMonotone(Elems(p), rows); }
    }
  }

  lemma SizeMonotone<T>(a: set<T>, b: set<T>)
    requires a <= b
    ensures |a| <= |b|
    ensures |a| == |b| ==> a == b
  {
    assert b == a + (b - a);
  }

  /** A row left out of one table's first k comes after every row of the merged cut. */
  lemma CutBefore(sort: Sort, a: set<Row>, pa: seq<Row>, m: seq<Row>, k: nat, x: Row, y: Row)
    requires IsPrefix(sort, pa, a, k) && x in a && x !in pa
    requires Ascending(sort, m) && Elems(pa) <= Elems(m) && x !in m
    requires y in Take(m, k)
    requires x.side == y.side && x.id == y.id ==> x == y
    ensures Before(sort, y, x)
  {
    if !Before(sort, y, x) {
      assert Before(sort, x, y);
      var i :| 0 <= i < Min(k, |m|) && m[i] == y;
      ElemsSize(sort, pa);
      ElemsSize(sort, m[..i]);
      forall z | z in Elems(pa)
        ensures z in Elems(m[..i])
      {
        assert Before(sort, z, y);
        assert z in Elems(m);
        var j :| 0 <= j < |m| && m[j] == z;
        assert j < i;
        assert m[..i][j] == z;
      }
      SizeMonotone(Elems(pa), Elems(m[..i]));
      SizeMonotone(Elems(pa) + {x}, a);
      assert false;
    }
  }

  /** The sizes behind the merge: cutting each table to k loses nothing below k. */
  lemma MergeSizes(sort: Sort, a: set<Row>, b: set<Row>, pa: seq<Row>, pb: seq<Row>, k: nat)
    requires IsPrefix(sort, pa, a, k) && IsPrefix(sort, pb, b, k)
    ensures Min(k, |Elems(pa) + Elems(pb)|) == Min(k, |a + b|)
    ensures |a| > k || |b| > k || |Elems(pa) + Elems(pb)| > k <==> |a + b| > k
  {
    var both := Elems(pa) + Elems(pb);
    ElemsSize(sort, pa);
    ElemsSize(sort, pb);
    SizeMonotone(both, a + b);
    SizeMonotone(a, a + b);
    SizeMonotone(b, a + b);
    SizeMonotone(Elems(pa), both);
    SizeMonotone(Elems(pb), both);
    SizeMonotone(Elems(pa), a);
    SizeMonotone(Elems(pb), b);
  }

  lemma MergeCutIsLeast(sort: Sort, a: set<Row>, b: set<Row>, pa: seq<Row>, pb: seq<Row>, k: nat,
                           items: seq<Row>, x: Row, y: Row)
    requires Keyed(a + b) && IsPrefix(sort, pa, a, k) && IsPrefix(sort, pb, b, k)
    requires Keyed(Elems(pa) + Elems(pb)) && items == Take(Sorted(sort, Elems(pa) + Elems(pb)), k)
    requires x in a + b && x !in items && y in items
    ensures Before(sort, y, x)
  {
    var both := Elems(pa) + Elems(pb);
    var m := Sorted(sort, both);
    TakeIsPrefix(sort, both, k);
    assert y in a + b;
    if x !in both {
      assert x !in m by { assert x !in Elems(m); }
      if x in a {
        CutBefore(sort, a, pa, m, k, x, y);
      } else {
        CutBefore(sort, b, pb, m, k, x, y);
      }
    }
  }

  /**
   * The ordered merge: take at most k rows of each of two tables, merge them, and cut to k.
   * The result is the first k rows of both tables together.
   */
  lemma {:induction false} MergeTakesUnionPrefix(sort: Sort, a: set<Row>, b: set<Row>, k: nat)
    requires Keyed(a + b)
    ensures
      var pa := Take(Sorted(sort, a), k);
      var pb := Take(Sorted(sort, b), k);
      && Keyed(Elems(pa) + Elems(pb))
      && Take(Sorted(sort, Elems(pa) + Elems(pb)), k) == Take(Sorted(sort, a + b), k)
      && (|a| > k || |b| > k || |Elems(pa) + Elems(pb)| > k <==> |a + b| > k)
  {
    var pa := Take(Sorted(sort, a), k);
    var pb := Take(Sorted(sort, b), k);
    TakeIsPrefix(sort, a, k);
    TakeIsPrefix(sort, b, k);
    var both := Elems(pa) + Elems(pb);
    assert both <= a + b;
    var items := Take(Sorted(sort, both), k);
    MergeSizes(sort, a, b, pa, pb, k);
    TakeIsPrefix(sort, both, k);
    forall x, y | x in a + b && x !in items && y in items
      ensures Before(sort, y, x)
    {
      MergeCutIsLeast(sort, a, b, pa, pb, k, items, x, y);
    }
    PrefixIsTake(sort, items, a + b, k);
  }
}
