/** What the value policy lets through: every part of a value, every text and every name, spelled out. */
module PolicyScope {
  import opened Options
  import opened CodeUnits
  import opened ActionPolicy
  import Json

  // ---- The parts of a value ----

  /** The part of a value that a path of positions leads to. */
  function At(v: Value, path: seq<nat>): Option<Value>
    decreases |path|
  {
    if path == [] then Some(v)
    else
      match v
      case List(items) => if path[0] < |items| then At(items[path[0]], path[1..]) else None
      case Record(props) => if path[0] < |props| then At(props[path[0]].value, path[1..]) else None
      case _ => None
  }

  /** A lower-case letter, then up to 63 letters, digits and underscores, and no restricted name. */
  predicate IsPlainName(key: Text) {
    && 1 <= |key| <= 64 && 'a' as int <= key[0] <= 'z' as int
    && (forall i :: 0 <= i < |key| ==>
          || 'a' as int <= key[i] <= 'z' as int || 'A' as int <= key[i] <= 'Z' as int
          || '0' as int <= key[i] <= '9' as int || key[i] == '_' as int)
    && !HasUnsafeKey(key)
  }

  /** A part on its own is acceptable in metadata and results. */
  predicate SafeHere(u: Value) {
    match u
    case Num(number) => number.Integer? && -0x1F_FFFF_FFFF_FFFF <= number.n <= 0x1F_FFFF_FFFF_FFFF
    case Str(s) => |s| <= 512 && !HasUnsafeText(s)
    case Record(props) => forall i :: 0 <= i < |props| ==> IsPlainName(props[i].key)
    case Undefined => false
    case Other => false
    case _ => true
  }

  /** Every part, at any depth, is acceptable. */
  ghost predicate SafeEverywhere(v: Value) {
    forall path: seq<nat> :: At(v, path).Some? ==> SafeHere(At(v, path).value)
  }

  lemma SafePart(v: Value)
    requires IsSafe(v)
    ensures SafeHere(v)
  {
  }

  lemma {:induction false} SafeInside(v: Value, path: seq<nat>)
    requires IsSafe(v) && At(v, path).Some?
    ensures SafeHere(At(v, path).value)
    decreases |path|
  {
    if path == [] {
      SafePart(v);
    } else {
      SafeInside(if v.List? then v.items[path[0]] else v.props[path[0]].value, path[1..]);
    }
  }

  lemma PathInto(v: Value, child: Value, i: nat, path: seq<nat>)
    requires v.List? || v.Record?
    requires v.List? ==> i < |v.items| && v.items[i] == child
    requires v.Record? ==> i < |v.props| && v.props[i].value == child
    ensures At(v, [i] + path) == At(child, path)
  {
    assert ([i] + path)[1..] == path;
  }

  lemma {:induction false} SafeThroughout(v: Value)
    requires SafeEverywhere(v)
    ensures IsSafe(v)
    decreases v
  {
    assert At(v, []) == Some(v) && SafeHere(v);
    match v
    case List(items) =>
      forall i | 0 <= i < |items|
        ensures IsSafe(items[i])
      {
        forall path: seq<nat> | At(items[i], path).Some?
          ensures SafeHere(At(items[i], path).value)
        {
          PathInto(v, items[i], i, path);
        }
        SafeThroughout(items[i]);
      }
    case Record(props) =>
      forall i | 0 <= i < |props|
        ensures IsSafeKey(props[i].key) && !HasUnsafeKey(props[i].key) && IsSafe(props[i].value)
      {
        assert IsPlainName(props[i].key);
        forall path: seq<nat> | At(props[i].value, path).Some?
          ensures SafeHere(At(props[i].value, path).value)
        {
          PathInto(v, props[i].value, i, path);
        }
        SafeThroughout(props[i].value);
      }
    case _ =>
  }

  /** A value is accepted exactly when each of its parts, at any depth, is acceptable on its own. */
  lemma {:induction false} SafeExactly(v: Value)
    ensures IsSafe(v) <==> SafeEverywhere(v)
  {
    if IsSafe(v) {
      forall path: seq<nat> | At(v, path).Some?
        ensures SafeHere(At(v, path).value)
      {
        SafeInside(v, path);
      }
    } else if SafeEverywhere(v) {
      SafeThroughout(v);
    }
  }

  /** A part on its own is acceptable in a request. */
  predicate RequestHere(u: Value) {
    match u
    case Num(number) => number.Integer? && -0x1F_FFFF_FFFF_FFFF <= number.n <= 0x1F_FFFF_FFFF_FFFF
    case Record(props) => forall i :: 0 <= i < |props| ==> 1 <= |props[i].key| <= 100
    case Other => false
    case _ => true
  }

  ghost predicate RequestEverywhere(v: Value) {
    forall path: seq<nat> :: At(v, path).Some? ==> RequestHere(At(v, path).value)
  }

  lemma {:induction false} RequestInside(v: Value, path: seq<nat>)
    requires IsRequest(v) && At(v, path).Some?
    ensures RequestHere(At(v, path).value)
    decreases |path|
  {
    if path != [] {
      RequestInside(if v.List? then v.items[path[0]] else v.props[path[0]].value, path[1..]);
    }
  }

  lemma {:induction false} RequestThroughout(v: Value)
    requires RequestEverywhere(v)
    ensures IsRequest(v)
    decreases v
  {
    assert At(v, []) == Some(v) && RequestHere(v);
    match v
    case List(items) =>
      forall i | 0 <= i < |items|
        ensures IsRequest(items[i])
      {
        forall path: seq<nat> | At(items[i], path).Some?
          ensures RequestHere(At(items[i], path).value)
        {
          PathInto(v, items[i], i, path);
        }
        RequestThroughout(items[i]);
      }
    case Record(props) =>
      forall i | 0 <= i < |props|
        ensures 1 <= |props[i].key| <= MAX_FIELD_NAME && IsRequest(props[i].value)
      {
        forall path: seq<nat> | At(props[i].value, path).Some?
          ensures RequestHere(At(props[i].value, path).value)
        {
          PathInto(v, props[i].value, i, path);
        }
        RequestThroughout(props[i].value);
      }
    case _ =>
  }

  /** A request is accepted exactly when each of its parts, at any depth, is acceptable on its own. */
  lemma {:induction false} RequestExactly(v: Value)
    ensures IsRequest(v) <==> RequestEverywhere(v)
  {
    if IsRequest(v) {
      forall path: seq<nat> | At(v, path).Some?
        ensures RequestHere(At(v, path).value)
      {
        RequestInside(v, path);
      }
    } else if RequestEverywhere(v) {
      RequestThroughout(v);
    }
  }

  /** The part stays as it is, except that undefined becomes null. */
  predicate KeptOrNulled(u: Value, n: Value) {
    match u
    case Undefined => n == Nothing
    case List(items) => n.List? && |n.items| == |items|
    case Record(props) =>
      n.Record? && |n.props| == |props| && forall i :: 0 <= i < |props| ==> n.props[i].key == props[i].key
    case _ => n == u
  }

  /** Normalizing a request keeps every part in its place and changes undefined to null, nothing else. */
  lemma {:induction false} NulledExactly(v: Value, path: seq<nat>)
    ensures At(Nulled(v), path).Some? <==> At(v, path).Some?
    ensures At(v, path).Some? ==> KeptOrNulled(At(v, path).value, At(Nulled(v), path).value)
    decreases |path|
  {
    if path != [] {
      match v
      case List(items) =>
        if path[0] < |items| {
          NulledExactly(items[path[0]], path[1..]);
        }
      case Record(props) =>
        if path[0] < |props| {
          NulledExactly(props[path[0]].value, path[1..]);
        }
      case _ =>
    }
  }
}
