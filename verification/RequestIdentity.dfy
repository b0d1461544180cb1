/** When two commands, as they arrive, are one request: their hashes, told from the raw values. */
module RequestIdentity {
  import opened Options
  import opened CodeUnits
  import opened Json
  import opened RequestHash
  import opened CanonicalJson
  import opened ActionPolicy

  predicate HasName(props: seq<Prop>, key: Text) {
    exists i :: 0 <= i < |props| && props[i].key == key
  }

  /** Equal values, whatever the order of names in their objects. */
  ghost predicate Alike(a: Value, b: Value)
    decreases a
  {
    match a
    case List(items) =>
      b.List? && |items| == |b.items| && forall i :: 0 <= i < |items| ==> Alike(items[i], b.items[i])
    case Record(props) =>
      && b.Record? && (forall key :: HasName(props, key) <==> HasName(b.props, key))
      && forall i, j :: 0 <= i < |props| && 0 <= j < |b.props| && props[i].key == b.props[j].key
           ==> Alike(props[i].value, b.props[j].value)
    case _ => a == b
  }

  lemma SameNames(v: Value, key: Text)
    requires IsJson(v) && v.Record?
    ensures HasKey(ToJson(v).entries, key) <==> HasName(v.props, key)
  {
    var entries := ToJson(v).entries;
    if HasKey(entries, key) {
      var e :| e in entries && e.key == key;
      var i :| 0 <= i < |entries| && entries[i] == e;
      assert v.props[i].key == key;
    }
    if HasName(v.props, key) {
      var i :| 0 <= i < |v.props| && v.props[i].key == key;
      assert entries[i].key == key && entries[i] in entries;
    }
  }

  /** The JSON trees of two values are the same exactly when the values are alike. */
  lemma {:induction false} TreesTellApart(a: Value, b: Value)
    requires IsJson(a) && IsJson(b)
    ensures Same(ToJson(a), ToJson(b)) <==> Alike(a, b)
    decreases a
  {
    if a.List? && b.List? {
      if |a.items| == |b.items| {
        forall i | 0 <= i < |a.items|
          ensures Same(ToJson(a.items[i]), ToJson(b.items[i])) <==> Alike(a.items[i], b.items[i])
        {
          TreesTellApart(a.items[i], b.items[i]);
        }
        ListsTellApart(a, b);
      }
    } else if a.Record? && b.Record? {
      forall i, j | 0 <= i < |a.props| && 0 <= j < |b.props|
        ensures Same(ToJson(a.props[i].value), ToJson(b.props[j].value)) <==> Alike(a.props[i].value, b.props[j].value)
      {
        TreesTellApart(a.props[i].value, b.props[j].value);
      }
      RecordsTellApart(a, b);
    } else if a.Num? && b.Num? {
      IntTextInjective(a.number.n, b.number.n);
    }
  }

  lemma ListsTellApart(a: Value, b: Value)
    requires IsJson(a) && IsJson(b) && a.List? && b.List? && |a.items| == |b.items|
    requires forall i :: 0 <= i < |a.items| ==>
               (Same(ToJson(a.items[i]), ToJson(b.items[i])) <==> Alike(a.items[i], b.items[i]))
    ensures Same(ToJson(a), ToJson(b)) <==> Alike(a, b)
  {
    var x, y := ToJson(a).items, ToJson(b).items;
    assert forall i :: 0 <= i < |x| ==> x[i] == ToJson(a.items[i]) && y[i] == ToJson(b.items[i]);
  }

  lemma RecordsTellApart(a: Value, b: Value)
    requires IsJson(a) && IsJson(b) && a.Record? && b.Record?
    requires forall i, j :: 0 <= i < |a.props| && 0 <= j < |b.props| ==>
               (Same(ToJson(a.props[i].value), ToJson(b.props[j].value))
                <==> Alike(a.props[i].value, b.props[j].value))
    ensures Same(ToJson(a), ToJson(b)) <==> Alike(a, b)
  {
    var x, y := ToJson(a).entries, ToJson(b).entries;
    assert forall i :: 0 <= i < |x| ==> x[i] == Entry(a.props[i].key, ToJson(a.props[i].value));
    assert forall j :: 0 <= j < |y| ==> y[j] == Entry(b.props[j].key, ToJson(b.props[j].value));
    forall key
      ensures HasKey(x, key) <==> HasName(a.props, key)
      ensures HasKey(y, key) <==> HasName(b.props, key)
    {
      SameNames(a, key);
      SameNames(b, key);
    }
  }

  /**
   * Two commands hash alike exactly when they agree in every plain field, their requests are alike
   * once undefined is read as null, and their metadata is alike; so a retry may reorder the names
   * in its objects and nothing else.
   */
  lemma {:induction false} CommandsHashAlike(
    sha: Text -> string, f: Input, a: Value, m: Value, g: Input, b: Value, n: Value)
    requires forall s, t :: sha(s) == sha(t) ==> s == t
    requires f.Valid() && g.Valid() && Proper(m) && SafeObject(m).Ok? && Proper(n) && SafeObject(n).Ok?
    requires IsRequest(a) && Proper(a) && IsRequest(b) && Proper(b)
    ensures
      var sameHash :=
        RequestHash.RequestHash(sha, Hashed(f, a, m)) == RequestHash.RequestHash(sha, Hashed(g, b, n));
      sameHash <==>
        && f.(request := Null, metadata := Null) == g.(request := Null, metadata := Null)
        && Alike(Nulled(a), Nulled(b)) && Alike(SafeObject(m).value, SafeObject(n).value)
  {
    NulledIsJson(a);
    NulledIsJson(b);
    KeptIsProper(m);
    KeptIsProper(n);
    HashedIsValid(f, a, m);
    HashedIsValid(g, b, n);
    HashTellsCommandsApart(sha, Hashed(f, a, m), Hashed(g, b, n));
    TreesTellApart(Nulled(a), Nulled(b));
    TreesTellApart(SafeObject(m).value, SafeObject(n).value);
  }
}
