/** Canonical JSON: one text for every JSON value, whatever the order of its keys. */
module CanonicalJson {
  import opened CodeUnits
  import opened Json
  import opened Options

  /** An entry put in its place among sorted ones. */
  function InsertEntry(e: Entry, sorted: seq<Entry>): (r: seq<Entry>)
    ensures |r| == |sorted| + 1 && forall f :: f in r <==> f == e || f in sorted
  {
    if sorted == [] || UnitsLess(e.key, sorted[0].key) then [e] + sorted
    else
      HeadAndTail(sorted);
      [sorted[0]] + InsertEntry(e, sorted[1..])
  }

  /** `Object.keys(value).sort()`, each key with its value. */
  function SortEntries(entries: seq<Entry>): (r: seq<Entry>)
    ensures |r| == |entries| && forall e :: e in r <==> e in entries
  {
    if entries == [] then []
    else
      HeadAndTail(entries);
      InsertEntry(entries[0], SortEntries(entries[1..]))
  }

  function CanonicalJson(v: Json): Text
    decreases v, 1, 0
  {
    match v
    case Null => Units("null")
    case String(s) => Quoted(s)
    case Bool(b) => if b then Units("true") else Units("false")
    case Number(lexeme) => lexeme
    case Array(items) => [OPEN_ARRAY] + (JoinItems(v, items) + [CLOSE_ARRAY])
    case Object(entries) => [OPEN_OBJECT] + (JoinEntries(v, SortEntries(entries)) + [CLOSE_OBJECT])
  }

  function JoinItems(ghost parent: Json, items: seq<Json>): Text
    requires forall i :: 0 <= i < |items| ==> items[i] < parent
    decreases parent, 0, |items|
  {
    if items == [] then []
    else if |items| == 1 then CanonicalJson(items[0])
    else CanonicalJson(items[0]) + ([COMMA] + JoinItems(parent, items[1..]))
  }

  function JoinEntries(ghost parent: Json, entries: seq<Entry>): Text
    requires forall e :: e in entries ==> e.value < parent
    decreases parent, 0, |entries|
  {
    if entries == [] then []
    else
      var member := Quoted(entries[0].key) + ([COLON] + CanonicalJson(entries[0].value));
      if |entries| == 1 then member else member + ([COMMA] + JoinEntries(parent, entries[1..]))
  }

  // ---- Sorted keys ----

  predicate DistinctKeys(entries: seq<Entry>) {
    forall i, j :: 0 <= i < j < |entries| ==> entries[i].key != entries[j].key
  }

  predicate Increasing(entries: seq<Entry>) {
    forall i, j :: 0 <= i < j < |entries| ==> UnitsLess(entries[i].key, entries[j].key)
  }

  lemma {:induction false} InsertIncreases(e: Entry, sorted: seq<Entry>)
    requires Increasing(sorted) && forall f :: f in sorted ==> f.key != e.key
    ensures Increasing(InsertEntry(e, sorted))
  {
    if sorted != [] {
      HeadAndTail(sorted);
      if UnitsLess(e.key, sorted[0].key) {
        forall f | f in sorted
          ensures UnitsLess(e.key, f.key)
        {
          AfterFirst(sorted, f);
          if f != sorted[0] {
            UnitsTransitive(e.key, sorted[0].key, f.key);
          }
        }
        PutFirst(e, sorted);
      } else {
        InsertIncreases(e, sorted[1..]);
        UnitsOrder(e.key, sorted[0].key);
        forall f | f in InsertEntry(e, sorted[1..])
          ensures UnitsLess(sorted[0].key, f.key)
        {
          if f != e {
            InTail(sorted, f);
          }
        }
        PutFirst(sorted[0], InsertEntry(e, sorted[1..]));
      }
    }
  }

  lemma AfterFirst(sorted: seq<Entry>, f: Entry)
    requires Increasing(sorted) && f in sorted
    ensures f == sorted[0] || UnitsLess(sorted[0].key, f.key)
  {
  }

  lemma InTail(sorted: seq<Entry>, f: Entry)
    requires Increasing(sorted) && sorted != [] && f in sorted[1..]
    ensures UnitsLess(sorted[0].key, f.key)
  {
    var i :| 0 <= i < |sorted| - 1 && sorted[1..][i] == f;
    assert sorted[i + 1] == f;
  }

  lemma PutFirst(e: Entry, sorted: seq<Entry>)
    requires Increasing(sorted) && forall f :: f in sorted ==> UnitsLess(e.key, f.key)
    ensures Increasing([e] + sorted)
  {
    var q := [e] + sorted;
    forall i, j | 0 <= i < j < |q|
      ensures UnitsLess(q[i].key, q[j].key)
    {
      assert q[j] == sorted[j - 1] && sorted[j - 1] in sorted;
    }
  }

  lemma {:induction false} SortIncreases(entries: seq<Entry>)
    requires DistinctKeys(entries)
    ensures Increasing(SortEntries(entries))
  {
    if entries != [] {
      HeadAndTail(entries);
      SortIncreases(entries[1..]);
      forall f | f in SortEntries(entries[1..])
        ensures f.key != entries[0].key
      {
        var i :| 0 <= i < |entries| - 1 && entries[1..][i] == f;
        assert entries[i + 1] == f;
      }
      InsertIncreases(entries[0], SortEntries(entries[1..]));
    }
  }

  predicate HasKey(entries: seq<Entry>, key: Text) {
    exists e :: e in entries && e.key == key
  }

  ghost predicate SameKeys(a: seq<Entry>, b: seq<Entry>) {
    forall key :: HasKey(a, key) <==> HasKey(b, key)
  }

  lemma LeastKey(a: seq<Entry>, b: seq<Entry>)
    requires Increasing(a) && Increasing(b) && a != [] && HasKey(b, a[0].key)
    ensures b != [] && (b[0].key == a[0].key || UnitsLess(b[0].key, a[0].key))
  {
    var e :| e in b && e.key == a[0].key;
    AfterFirst(b, e);
  }

  lemma TailKeys(a: seq<Entry>, key: Text)
    requires Increasing(a) && a != []
    ensures HasKey(a[1..], key) <==> HasKey(a, key) && key != a[0].key
  {
    HeadAndTail(a);
    UnitsOrder(key, key);
    if e :| e in a[1..] && e.key == key {
      InTail(a, e);
      assert e in a;
    }
    if HasKey(a, key) && key != a[0].key {
      var e :| e in a && e.key == key;
      assert e in a[1..];
    }
  }

  /** Two sorted listings of the same keys line up. */
  lemma {:induction false} KeysAlign(a: seq<Entry>, b: seq<Entry>)
    requires Increasing(a) && Increasing(b) && SameKeys(a, b)
    ensures |a| == |b| && forall i :: 0 <= i < |a| ==> a[i].key == b[i].key
    decreases |a|
  {
    if a == [] {
      if b != [] {
        assert HasKey(b, b[0].key);
      }
    } else {
      assert HasKey(a, a[0].key);
      LeastKey(a, b);
      assert HasKey(b, b[0].key);
      LeastKey(b, a);
      UnitsOrder(a[0].key, b[0].key);
      forall key
        ensures HasKey(a[1..], key) <==> HasKey(b[1..], key)
      {
        TailKeys(a, key);
        TailKeys(b, key);
      }
      KeysAlign(a[1..], b[1..]);
      forall i | 0 < i < |a|
        ensures a[i].key == b[i].key
      {
        assert a[i] == a[1..][i - 1] && b[i] == b[1..][i - 1];
      }
    }
  }

  // ---- The sorted tree ----

  /** Every object of the tree has distinct keys, as a JavaScript object does. */
  predicate ProperKeys(v: Json) {
    match v
    case Array(items) => forall i :: 0 <= i < |items| ==> ProperKeys(items[i])
    case Object(entries) => DistinctKeys(entries) && forall i :: 0 <= i < |entries| ==> ProperKeys(entries[i].value)
    case _ => true
  }

  /** Equal as JSON values: the same tree up to the order of keys in its objects. */
  ghost predicate Same(a: Json, b: Json)
    decreases a
  {
    if a.Array? && b.Array? then
      |a.items| == |b.items| && forall i :: 0 <= i < |a.items| ==> Same(a.items[i], b.items[i])
    else if a.Object? && b.Object? then
      && SameKeys(a.entries, b.entries)
      && forall i, j :: 0 <= i < |a.entries| && 0 <= j < |b.entries| && a.entries[i].key == b.entries[j].key
           ==> Same(a.entries[i].value, b.entries[j].value)
    else a == b
  }

  /** The tree with the keys of every object sorted. */
  function Canonical(v: Json): (c: Json)
    decreases v, 1, 0
  {
    match v
    case Array(items) => Array(CanonicalItems(v, items))
    case Object(entries) => Object(CanonicalEntries(v, SortEntries(entries)))
    case _ => v
  }

  function CanonicalItems(ghost parent: Json, items: seq<Json>): (r: seq<Json>)
    requires forall i :: 0 <= i < |items| ==> items[i] < parent
    ensures |r| == |items| && forall i :: 0 <= i < |items| ==> r[i] == Canonical(items[i])
    decreases parent, 0, |items|
  {
    if items == [] then [] else [Canonical(items[0])] + CanonicalItems(parent, items[1..])
  }

  function CanonicalEntries(ghost parent: Json, entries: seq<Entry>): (r: seq<Entry>)
    requires forall e :: e in entries ==> e.value < parent
    ensures |r| == |entries|
    ensures forall i :: 0 <= i < |entries| ==> r[i] == Entry(entries[i].key, Canonical(entries[i].value))
    decreases parent, 0, |entries|
  {
    if entries == [] then []
    else
      assert entries[0] in entries;
      [Entry(entries[0].key, Canonical(entries[0].value))] + CanonicalEntries(parent, entries[1..])
  }

  lemma {:induction false} CanonicalJsonPrints(v: Json)
    ensures CanonicalJson(v) == Print(Canonical(v))
    decreases v, 1, 0
  {
    match v
    case Array(items) => ItemsPrint(v, items);
    case Object(entries) => EntriesPrint(v, SortEntries(entries));
    case _ =>
  }

  lemma {:induction false} ItemsPrint(parent: Json, items: seq<Json>)
    requires forall i :: 0 <= i < |items| ==> items[i] < parent
    ensures JoinItems(parent, items) == PrintItems(CanonicalItems(parent, items))
    decreases parent, 0, |items|
  {
    if items != [] {
      CanonicalJsonPrints(items[0]);
      ItemsPrint(parent, items[1..]);
      assert CanonicalItems(parent, items)[1..] == CanonicalItems(parent, items[1..]);
    }
  }

  lemma {:induction false} EntriesPrint(parent: Json, entries: seq<Entry>)
    requires forall e :: e in entries ==> e.value < parent
    ensures JoinEntries(parent, entries) == PrintEntries(CanonicalEntries(parent, entries))
    decreases parent, 0, |entries|
  {
    if entries != [] {
      assert entries[0] in entries;
      CanonicalJsonPrints(entries[0].value);
      EntriesPrint(parent, entries[1..]);
      assert CanonicalEntries(parent, entries)[1..] == CanonicalEntries(parent, entries[1..]);
    }
  }

  lemma {:induction false} CanonicalPrintable(v: Json)
    requires Printable(v)
    ensures Printable(Canonical(v))
    decreases v
  {
    if v.Array? {
      forall i | 0 <= i < |v.items|
        ensures Printable(Canonical(v.items[i]))
      {
        CanonicalPrintable(v.items[i]);
      }
    } else if v.Object? {
      var sorted := SortEntries(v.entries);
      forall i | 0 <= i < |sorted|
        ensures Printable(Canonical(sorted[i].value))
      {
        assert sorted[i] in v.entries;
        CanonicalPrintable(sorted[i].value);
      }
    }
  }

  // ---- Equal texts are equal values ----

  lemma SortedKeysSame(entries: seq<Entry>, key: Text)
    ensures HasKey(SortEntries(entries), key) <==> HasKey(entries, key)
  {
    if e :| e in entries && e.key == key {
      assert e in SortEntries(entries);
    }
    if e :| e in SortEntries(entries) && e.key == key {
      assert e in entries;
    }
  }

  lemma SameObjectsAlign(a: Json, b: Json)
    requires a.Object? && b.Object? && DistinctKeys(a.entries) && DistinctKeys(b.entries) && Same(a, b)
    ensures
      var p, q := SortEntries(a.entries), SortEntries(b.entries);
      |p| == |q| && forall i :: 0 <= i < |p| ==> p[i].key == q[i].key && Same(p[i].value, q[i].value)
  {
    var p, q := SortEntries(a.entries), SortEntries(b.entries);
    SortIncreases(a.entries);
    SortIncreases(b.entries);
    forall key
      ensures HasKey(p, key) <==> HasKey(q, key)
    {
      SortedKeysSame(a.entries, key);
      SortedKeysSame(b.entries, key);
    }
    KeysAlign(p, q);
    forall i | 0 <= i < |p|
      ensures Same(p[i].value, q[i].value)
    {
      assert p[i] in a.entries && q[i] in b.entries;
      SameAtKey(a, b, p[i], q[i]);
    }
  }

  lemma SameAtKey(a: Json, b: Json, e: Entry, f: Entry)
    requires a.Object? && b.Object? && Same(a, b)
    requires e in a.entries && f in b.entries && e.key == f.key
    ensures Same(e.value, f.value)
  {
    var i :| 0 <= i < |a.entries| && a.entries[i] == e;
    var j :| 0 <= j < |b.entries| && b.entries[j] == f;
  }

  lemma {:induction false} SameCanonical(a: Json, b: Json)
    requires ProperKeys(a) && ProperKeys(b) && Same(a, b)
    ensures Canonical(a) == Canonical(b)
    decreases a, 1
  {
    if a.Array? && b.Array? {
      forall i | 0 <= i < |a.items|
        ensures Canonical(a.items[i]) == Canonical(b.items[i])
      {
        SameCanonical(a.items[i], b.items[i]);
      }
      assert Canonical(a).items == Canonical(b).items;
    } else if a.Object? && b.Object? {
      SameObjects(a, b);
    }
  }

  lemma {:induction false} SameObjects(a: Json, b: Json)
    requires a.Object? && b.Object? && ProperKeys(a) && ProperKeys(b) && Same(a, b)
    ensures Canonical(a) == Canonical(b)
    decreases a, 0
  {
    SameObjectsAlign(a, b);
    var p, q := SortEntries(a.entries), SortEntries(b.entries);
    forall i | 0 <= i < |p|
      ensures Canonical(p[i].value) == Canonical(q[i].value)
    {
      ProperEntry(a, p[i]);
      ProperEntry(b, q[i]);
      SameCanonical(p[i].value, q[i].value);
    }
    assert Canonical(a).entries == Canonical(b).entries;
  }

  lemma ProperEntry(a: Json, e: Entry)
    requires a.Object? && ProperKeys(a) && e in SortEntries(a.entries)
    ensures ProperKeys(e.value) && e.value < a
  {
    assert e in a.entries;
  }

  lemma {:induction false} CanonicalSame(a: Json, b: Json)
    requires ProperKeys(a) && ProperKeys(b) && Canonical(a) == Canonical(b)
    ensures Same(a, b)
    decreases a
  {
    if a.Array? && b.Array? {
      forall i | 0 <= i < |a.items|
        ensures Same(a.items[i], b.items[i])
      {
        assert Canonical(a).items[i] == Canonical(b).items[i];
        CanonicalSame(a.items[i], b.items[i]);
      }
    } else if a.Object? && b.Object? {
      var p, q := SortEntries(a.entries), SortEntries(b.entries);
      forall i | 0 <= i < |p|
        ensures p[i].key == q[i].key && Same(p[i].value, q[i].value)
      {
        assert Canonical(a).entries[i] == Canonical(b).entries[i];
        ProperEntry(a, p[i]);
        ProperEntry(b, q[i]);
        CanonicalSame(p[i].value, q[i].value);
      }
      SortIncreases(a.entries);
      AlignedSame(a, b, p, q);
    }
  }

  lemma AlignedSame(a: Json, b: Json, p: seq<Entry>, q: seq<Entry>)
    requires a.Object? && b.Object? && p == SortEntries(a.entries) && q == SortEntries(b.entries) && |p| == |q|
    requires Increasing(p) && forall i :: 0 <= i < |p| ==> p[i].key == q[i].key && Same(p[i].value, q[i].value)
    ensures Same(a, b)
  {
    forall key
      ensures HasKey(a.entries, key) <==> HasKey(b.entries, key)
    {
      SortedKeysSame(a.entries, key);
      SortedKeysSame(b.entries, key);
      if HasKey(p, key) {
        AlignedKeys(p, q, key);
      }
      if HasKey(q, key) {
        AlignedKeys(q, p, key);
      }
    }
    forall i, j | 0 <= i < |a.entries| && 0 <= j < |b.entries| && a.entries[i].key == b.entries[j].key
      ensures Same(a.entries[i].value, b.entries[j].value)
    {
      AlignedAt(p, q, a.entries[i], b.entries[j]);
    }
  }

  lemma AlignedKeys(p: seq<Entry>, q: seq<Entry>, key: Text)
    requires |p| == |q| && HasKey(p, key) && forall i :: 0 <= i < |p| ==> p[i].key == q[i].key
    ensures HasKey(q, key)
  {
    var e :| e in p && e.key == key;
    var i :| 0 <= i < |p| && p[i] == e;
    assert q[i] in q;
  }

  lemma AlignedAt(p: seq<Entry>, q: seq<Entry>, e: Entry, f: Entry)
    requires |p| == |q| && Increasing(p) && e in p && f in q && e.key == f.key
    requires forall i :: 0 <= i < |p| ==> p[i].key == q[i].key && Same(p[i].value, q[i].value)
    ensures Same(e.value, f.value)
  {
    var i :| 0 <= i < |p| && p[i] == e;
    var j :| 0 <= j < |q| && q[j] == f;
    UnitsOrder(e.key, e.key);
    assert i == j;
  }

  /**
   * Canonical JSON forgets the order of keys and nothing else: two values have one text exactly
   * when they are equal up to key order, however deep they nest.
   */
  lemma CanonicalJsonIsInjective(a: Json, b: Json)
    requires Printable(a) && Printable(b) && ProperKeys(a) && ProperKeys(b)
    ensures CanonicalJson(a) == CanonicalJson(b) <==> Same(a, b)
  {
    CanonicalJsonPrints(a);
    CanonicalJsonPrints(b);
    CanonicalPrintable(a);
    CanonicalPrintable(b);
    if CanonicalJson(a) == CanonicalJson(b) {
      JsonRoundTrip(Canonical(a));
      JsonRoundTrip(Canonical(b));
      CanonicalSame(a, b);
    } else if Same(a, b) {
      SameCanonical(a, b);
    }
  }
}
