/** Normalizing the request, metadata and result values of an Admin Action. */
module ActionPolicy {
  import opened Options
  import opened CodeUnits
  import opened Json
  import opened RequestHash
  import CanonicalJson

  datatype JsNumber = Integer(n: int) | NotInteger

  /** A JavaScript value as it arrives. `Other` is anything that is not a JSON value. */
  datatype Value =
    | Undefined
    | Nothing
    | Flag(b: bool)
    | Num(number: JsNumber)
    | Str(s: Text)
    | List(items: seq<Value>)
    | Record(props: seq<Prop>)
    | Other

  datatype Prop = Prop(key: Text, value: Value)

  datatype Error = UnsafeMetadata | InvalidRequest

  const MAX_SAFE_INTEGER := 9_007_199_254_740_991
  const MAX_SAFE_STRING := 512
  const MAX_FIELD_NAME := 100

  predicate DistinctNames(props: seq<Prop>) {
    forall i, j :: 0 <= i < j < |props| ==> props[i].key != props[j].key
  }

  /** An object's property names are distinct. */
  predicate Proper(v: Value) {
    match v
    case List(items) => forall i :: 0 <= i < |items| ==> Proper(items[i])
    case Record(props) => DistinctNames(props) && forall i :: 0 <= i < |props| ==> Proper(props[i].value)
    case _ => true
  }

  predicate IsSafeInteger(number: JsNumber) {
    number.Integer? && -MAX_SAFE_INTEGER <= number.n <= MAX_SAFE_INTEGER
  }

  // ---- Restricted names ----

  predicate IsLower(u: Unit) {
    'a' as int <= u <= 'z' as int
  }

  predicate IsUpper(u: Unit) {
    'A' as int <= u <= 'Z' as int
  }

  predicate IsWordUnit(u: Unit) {
    IsLower(u) || IsUpper(u) || IsDigit(u) || u == '_' as int
  }

  function Lower(u: Unit): Unit {
    if IsUpper(u) then u + 32 else u
  }

  function LowerCase(t: Text): (r: Text)
    ensures |r| == |t| && forall i :: 0 <= i < |t| ==> r[i] == Lower(t[i])
  {
    seq(|t|, i requires 0 <= i < |t| => Lower(t[i]))
  }

  /** An underscore between a lower-case and an upper-case letter, then all in lower case. */
  function SnakeCase(key: Text): Text {
    if |key| < 2 then LowerCase(key)
    else if IsLower(key[0]) && IsUpper(key[1]) then [key[0], '_' as int] + SnakeCase(key[1..])
    else [Lower(key[0])] + SnakeCase(key[1..])
  }

  predicate IsSafeKey(key: Text) {
    1 <= |key| <= 64 && IsLower(key[0]) && forall i :: 0 <= i < |key| ==> IsWordUnit(key[i])
  }

  predicate EndsWith(t: Text, word: Text) {
    |word| <= |t| && t[|t| - |word|..] == word
  }

  predicate OccursAt(t: Text, word: Text, i: nat) {
    i + |word| <= |t| && t[i..i + |word|] == word
  }

  predicate Includes(t: Text, word: Text) {
    exists i :: 0 <= i <= |t| && OccursAt(t, word, i)
  }

  function Split(t: Text, separator: Unit): (parts: seq<Text>)
    ensures parts != []
  {
    if t == [] then [[]]
    else
      var others := Split(t[1..], separator);
      if t[0] == separator then [[]] + others else [[t[0]] + others[0]] + others[1..]
  }

  const REASON_CODE := Units("reason_code")
  const REASON_TEXT := Units("reason_text")

  const UNSAFE_TOKENS: set<Text> := {
    Units("attachment"), Units("body"), Units("comment"), Units("content"), Units("credential"), Units("credentials"),
    Units("description"), Units("detail"), Units("evidence"), Units("file"), Units("link"), Units("message"),
    Units("password"), Units("payload"), Units("raw"), Units("reason"), Units("secret"), Units("signature"),
    Units("session"), Units("signed"), Units("token"), Units("text"), Units("url")}

  predicate HasUnsafeToken(parts: seq<Text>) {
    exists part :: part in parts && part in UNSAFE_TOKENS
  }

  predicate HasUnsafeKey(key: Text) {
    var name := SnakeCase(key);
    if name == REASON_CODE || EndsWith(name, ['_' as int] + REASON_CODE) then false
    else if Includes(name, REASON_TEXT) then true
    else HasUnsafeToken(Split(name, '_' as int))
  }

  lemma {:induction false} SnakeIsLower(key: Text)
    ensures forall i :: 0 <= i < |SnakeCase(key)| ==> !IsUpper(SnakeCase(key)[i])
  {
    if |key| >= 2 {
      SnakeIsLower(key[1..]);
    }
  }

  lemma {:induction false} LowerIsSnake(t: Text)
    requires forall i :: 0 <= i < |t| ==> !IsUpper(t[i])
    ensures SnakeCase(t) == t
  {
    if |t| >= 2 {
      LowerIsSnake(t[1..]);
      HeadAndTail(t);
    }
  }

  /** A name is restricted in camel case exactly when its snake case spelling is. */
  lemma {:induction false} SpellingsAlike(key: Text)
    ensures HasUnsafeKey(SnakeCase(key)) == HasUnsafeKey(key)
  {
    SnakeIsLower(key);
    LowerIsSnake(SnakeCase(key));
  }

  // ---- Restricted texts ----

  const UNSAFE_MARKS: seq<Text> := [
    Units("http://"), Units("https://"), Units("data:"), Units("s3://"), Units("x-amz-"), Units("signature=")]

  const SIGNED := Units("signed")

  /** A word boundary: a word character on exactly one side. */
  predicate IsBoundary(t: Text, i: nat)
    requires i <= |t|
  {
    (i > 0 && IsWordUnit(t[i - 1])) != (i < |t| && IsWordUnit(t[i]))
  }

  predicate IncludesWord(t: Text, word: Text) {
    exists i :: 0 <= i <= |t| && OccursAt(t, word, i) && IsBoundary(t, i) && IsBoundary(t, i + |word|)
  }

  predicate HasUnsafeText(s: Text) {
    var t := LowerCase(s);
    (exists m :: m in UNSAFE_MARKS && Includes(t, m)) || IncludesWord(t, SIGNED)
  }

  // ---- What is accepted ----

  /** Nested to any depth: safe integers, short texts without links, and unrestricted names only. */
  predicate IsSafe(v: Value) {
    match v
    case Nothing => true
    case Flag(_) => true
    case Num(number) => IsSafeInteger(number)
    case Str(s) => |s| <= MAX_SAFE_STRING && !HasUnsafeText(s)
    case List(items) => forall i :: 0 <= i < |items| ==> IsSafe(items[i])
    case Record(props) =>
      forall i :: 0 <= i < |props| ==> IsSafeKey(props[i].key) && !HasUnsafeKey(props[i].key) && IsSafe(props[i].value)
    case Undefined => false
    case Other => false
  }

  /** `object[key] = value`: in place, or as a new last property. */
  function Assign(props: seq<Prop>, key: Text, value: Value): seq<Prop> {
    if props == [] then [Prop(key, value)]
    else if props[0].key == key then [Prop(key, value)] + props[1..]
    else [props[0]] + Assign(props[1..], key, value)
  }

  lemma {:induction false} NewNameAppends(props: seq<Prop>, key: Text, value: Value)
    requires forall i :: 0 <= i < |props| ==> props[i].key != key
    ensures Assign(props, key, value) == props + [Prop(key, value)]
  {
    if props == [] {
      assert props + [Prop(key, value)] == [Prop(key, value)];
    } else {
      NewNameAppends(props[1..], key, value);
      assert props[0].key != key;
      assert [props[0]] + (props[1..] + [Prop(key, value)]) == props + [Prop(key, value)];
    }
  }

  /** Accepts exactly the safe values, and gives them back unchanged. */
  method NormalizeSafeValue(v: Value) returns (r: Result<Value, Error>)
    requires Proper(v)
    ensures r == if IsSafe(v) then Ok(v) else Err(UnsafeMetadata)
    decreases v
  {
    match v
    case Nothing => r := Ok(v);
    case Flag(_) => r := Ok(v);
    case Num(number) =>
      if !IsSafeInteger(number) {
        return Err(UnsafeMetadata);
      }
      r := Ok(v);
    case Str(s) =>
      if |s| > MAX_SAFE_STRING {
        return Err(UnsafeMetadata);
      }
      if HasUnsafeText(s) {
        return Err(UnsafeMetadata);
      }
      r := Ok(v);
    case List(items) =>
      var normalized: seq<Value> := [];
      for i := 0 to |items|
        invariant normalized == items[..i]
        invariant forall k :: 0 <= k < i ==> IsSafe(items[k])
      {
        var item := NormalizeSafeValue(items[i]);
        if item.Err? {
          return item;
        }
        normalized := normalized + [item.value];
      }
      assert normalized == items;
      r := Ok(List(normalized));
    case Record(props) =>
      var normalized: seq<Prop> := [];
      for i := 0 to |props|
        invariant normalized == props[..i]
        invariant forall k :: 0 <= k < i ==> IsSafeKey(props[k].key) && !HasUnsafeKey(props[k].key)
        invariant forall k :: 0 <= k < i ==> IsSafe(props[k].value)
      {
        if !IsSafeKey(props[i].key) || HasUnsafeKey(props[i].key) {
          return Err(UnsafeMetadata);
        }
        var child := NormalizeSafeValue(props[i].value);
        if child.Err? {
          return child;
        }
        NewNameAppends(normalized, props[i].key, child.value);
        normalized := Assign(normalized, props[i].key, child.value);
      }
      assert normalized == props;
      r := Ok(Record(normalized));
    case Undefined => r := Err(UnsafeMetadata);
    case Other => r := Err(UnsafeMetadata);
  }

  /** An absent object is an empty one; anything else must be a safe object. */
  function SafeObject(v: Value): Result<Value, Error> {
    if v.Undefined? then Ok(Record([]))
    else if !v.Record? || !IsSafe(v) then Err(UnsafeMetadata)
    else Ok(v)
  }

  method NormalizeSafeObject(v: Value) returns (r: Result<Value, Error>)
    requires Proper(v)
    ensures r == SafeObject(v)
  {
    if v.Undefined? {
      return Ok(Record([]));
    }
    if !v.Record? {
      return Err(UnsafeMetadata);
    }
    r := NormalizeSafeValue(v);
  }

  /** The same value with the properties of its objects in some other order, as a store may keep it. */
  predicate Reordered(v: Value, w: Value)
    decreases w
  {
    if v.List? && w.List? then
      |v.items| == |w.items| && forall i :: 0 <= i < |w.items| ==> Reordered(v.items[i], w.items[i])
    else if v.Record? && w.Record? then
      forall j :: 0 <= j < |w.props| ==>
        exists i :: 0 <= i < |v.props| && v.props[i].key == w.props[j].key
                      && Reordered(v.props[i].value, w.props[j].value)
    else v == w
  }

  lemma {:induction false} ReorderedIsSafe(v: Value, w: Value)
    requires IsSafe(v) && Reordered(v, w)
    ensures IsSafe(w)
    decreases w
  {
    if v.List? && w.List? {
      forall i | 0 <= i < |w.items|
        ensures IsSafe(w.items[i])
      {
        ReorderedIsSafe(v.items[i], w.items[i]);
      }
    } else if v.Record? && w.Record? {
      forall j | 0 <= j < |w.props|
        ensures IsSafeKey(w.props[j].key) && !HasUnsafeKey(w.props[j].key) && IsSafe(w.props[j].value)
      {
        var i :| 0 <= i < |v.props| && v.props[i].key == w.props[j].key
                && Reordered(v.props[i].value, w.props[j].value);
        ReorderedIsSafe(v.props[i].value, w.props[j].value);
      }
    }
  }

  /**
   * A result that was accepted once is accepted again, unchanged, in whatever property order it
   * is read back: replaying a stored result never fails its own validation.
   */
  lemma ReplayIsAccepted(v: Value, stored: Value)
    requires SafeObject(v).Ok? && Reordered(SafeObject(v).value, stored)
    ensures SafeObject(stored) == Ok(stored)
    ensures SafeObject(SafeObject(v).value) == SafeObject(v)
  {
    ReorderedIsSafe(SafeObject(v).value, stored);
  }

  // ---- Requests ----

  /** Nested to any depth: JSON values with safe integers and names of 1 to 100 units. */
  predicate IsRequest(v: Value) {
    match v
    case Num(number) => IsSafeInteger(number)
    case List(items) => forall i :: 0 <= i < |items| ==> IsRequest(items[i])
    case Record(props) =>
      forall i :: 0 <= i < |props| ==> 1 <= |props[i].key| <= MAX_FIELD_NAME && IsRequest(props[i].value)
    case Other => false
    case _ => true
  }

  /** Every undefined value read as null, and nothing else changed. */
  function Nulled(v: Value): (r: Value) {
    match v
    case Undefined => Nothing
    case List(items) => List(seq(|items|, i requires 0 <= i < |items| => Nulled(items[i])))
    case Record(props) =>
      Record(seq(|props|, i requires 0 <= i < |props| => Prop(props[i].key, Nulled(props[i].value))))
    case _ => v
  }

  method NormalizeRequestValue(v: Value) returns (r: Result<Value, Error>)
    requires Proper(v)
    ensures r == if IsRequest(v) then Ok(Nulled(v)) else Err(InvalidRequest)
    decreases v
  {
    match v
    case Undefined => r := Ok(Nothing);
    case Nothing => r := Ok(v);
    case Flag(_) => r := Ok(v);
    case Str(_) => r := Ok(v);
    case Num(number) =>
      if !IsSafeInteger(number) {
        return Err(InvalidRequest);
      }
      r := Ok(v);
    case List(items) =>
      var normalized: seq<Value> := [];
      for i := 0 to |items|
        invariant |normalized| == i && forall k :: 0 <= k < i ==> normalized[k] == Nulled(items[k])
        invariant forall k :: 0 <= k < i ==> IsRequest(items[k])
      {
        var item := NormalizeRequestValue(items[i]);
        if item.Err? {
          return item;
        }
        normalized := normalized + [item.value];
      }
      assert normalized == Nulled(v).items;
      r := Ok(List(normalized));
    case Record(props) =>
      var normalized: seq<Prop> := [];
      for i := 0 to |props|
        invariant |normalized| == i
        invariant forall k :: 0 <= k < i ==> normalized[k] == Prop(props[k].key, Nulled(props[k].value))
        invariant forall k :: 0 <= k < i ==> 1 <= |props[k].key| <= MAX_FIELD_NAME && IsRequest(props[k].value)
      {
        if |props[i].key| == 0 || |props[i].key| > MAX_FIELD_NAME {
          return Err(InvalidRequest);
        }
        var child := NormalizeRequestValue(props[i].value);
        if child.Err? {
          return child;
        }
        NewNameAppends(normalized, props[i].key, child.value);
        normalized := Assign(normalized, props[i].key, child.value);
      }
      assert normalized == Nulled(v).props;
      r := Ok(Record(normalized));
    case Other => r := Err(InvalidRequest);
  }

  /** Whether a value holds no undefined and nothing that is not JSON. */
  predicate IsJson(v: Value) {
    match v
    case Undefined => false
    case Other => false
    case Num(number) => IsSafeInteger(number)
    case List(items) => forall i :: 0 <= i < |items| ==> IsJson(items[i])
    case Record(props) => forall i :: 0 <= i < |props| ==> IsJson(props[i].value)
    case _ => true
  }

  /** The JSON tree of a normalized value. */
  function ToJson(v: Value): Json
    requires IsJson(v)
  {
    match v
    case Nothing => Null
    case Flag(b) => Bool(b)
    case Num(number) => Number(IntText(number.n))
    case Str(s) => String(s)
    case List(items) => Array(seq(|items|, i requires 0 <= i < |items| => ToJson(items[i])))
    case Record(props) =>
      Object(seq(|props|, i requires 0 <= i < |props| => Entry(props[i].key, ToJson(props[i].value))))
  }

  lemma {:induction false} NulledIsJson(v: Value)
    requires IsRequest(v) && Proper(v)
    ensures IsJson(Nulled(v)) && Printable(ToJson(Nulled(v))) && CanonicalJson.ProperKeys(ToJson(Nulled(v)))
    decreases v
  {
    match v
    case Num(number) => IntTextIsNumber(number.n);
    case List(items) =>
      forall i | 0 <= i < |items|
        ensures IsJson(Nulled(items[i])) && Printable(ToJson(Nulled(items[i])))
        ensures CanonicalJson.ProperKeys(ToJson(Nulled(items[i])))
      {
        NulledIsJson(items[i]);
      }
    case Record(props) =>
      forall i | 0 <= i < |props|
        ensures
          && IsJson(Nulled(props[i].value)) && Printable(ToJson(Nulled(props[i].value)))
          && CanonicalJson.ProperKeys(ToJson(Nulled(props[i].value)))
      {
        NulledIsJson(props[i].value);
      }
    case _ =>
  }

  /** Normalizing twice is normalizing once; only undefined values ever change. */
  lemma {:induction false} NulledTwice(v: Value)
    requires IsRequest(v)
    ensures IsRequest(Nulled(v)) && Nulled(Nulled(v)) == Nulled(v)
    ensures IsJson(v) ==> Nulled(v) == v
    decreases v
  {
    match v
    case List(items) =>
      forall i | 0 <= i < |items|
        ensures IsRequest(Nulled(items[i])) && Nulled(Nulled(items[i])) == Nulled(items[i])
        ensures IsJson(items[i]) ==> Nulled(items[i]) == items[i]
      {
        NulledTwice(items[i]);
      }
    case Record(props) =>
      forall i | 0 <= i < |props|
        ensures IsRequest(Nulled(props[i].value)) && Nulled(Nulled(props[i].value)) == Nulled(props[i].value)
        ensures IsJson(props[i].value) ==> Nulled(props[i].value) == props[i].value
      {
        NulledTwice(props[i].value);
      }
    case _ =>
  }

  // ---- Into the request hash ----

  lemma {:induction false} SafeIsRequest(v: Value)
    requires IsSafe(v)
    ensures IsRequest(v) && IsJson(v)
    decreases v
  {
    match v
    case List(items) =>
      forall i | 0 <= i < |items|
        ensures IsRequest(items[i]) && IsJson(items[i])
      {
        SafeIsRequest(items[i]);
      }
    case Record(props) =>
      forall i | 0 <= i < |props|
        ensures IsRequest(props[i].value) && IsJson(props[i].value)
      {
        SafeIsRequest(props[i].value);
      }
    case _ =>
  }

  /** The hashed fields of a command with its request and metadata normalized. */
  function Hashed(fields: Input, request: Value, metadata: Value): Input
    requires IsRequest(request) && Proper(request) && SafeObject(metadata).Ok?
  {
    NulledIsJson(request);
    SafeIsRequest(SafeObject(metadata).value);
    fields.(request := ToJson(Nulled(request)), metadata := ToJson(SafeObject(metadata).value))
  }

  lemma KeptIsProper(metadata: Value)
    requires Proper(metadata) && SafeObject(metadata).Ok?
    ensures
      var kept := SafeObject(metadata).value;
      IsJson(kept) && Printable(ToJson(kept)) && CanonicalJson.ProperKeys(ToJson(kept))
  {
    var kept := SafeObject(metadata).value;
    SafeIsRequest(kept);
    NulledIsJson(kept);
    NulledTwice(kept);
  }

  lemma SameMetadata(metadata: Value)
    requires Proper(metadata) && SafeObject(metadata).Ok?
    ensures IsJson(SafeObject(metadata).value)
    ensures CanonicalJson.Same(ToJson(SafeObject(metadata).value), ToJson(SafeObject(metadata).value))
  {
    KeptIsProper(metadata);
    CanonicalJson.CanonicalJsonIsInjective(ToJson(SafeObject(metadata).value), ToJson(SafeObject(metadata).value));
  }

  lemma HashedIsValid(fields: Input, request: Value, metadata: Value)
    requires fields.Valid() && IsRequest(request) && Proper(request) && Proper(metadata) && SafeObject(metadata).Ok?
    ensures Hashed(fields, request, metadata).Valid()
  {
    NulledIsJson(request);
    KeptIsProper(metadata);
  }

  /**
   * Two retries that differ only in their raw request hash alike exactly when the requests are
   * equal JSON values once undefined is read as null; key order never tells them apart.
   */
  lemma {:induction false} RequestsHashAlike(sha: Text -> string, fields: Input, a: Value, b: Value, metadata: Value)
    requires forall s, t :: sha(s) == sha(t) ==> s == t
    requires fields.Valid() && Proper(metadata) && SafeObject(metadata).Ok?
    requires IsRequest(a) && Proper(a) && IsRequest(b) && Proper(b)
    ensures IsJson(Nulled(a)) && IsJson(Nulled(b))
    ensures
      var sameHash :=
        RequestHash.RequestHash(sha, Hashed(fields, a, metadata))
        == RequestHash.RequestHash(sha, Hashed(fields, b, metadata));
      sameHash <==> CanonicalJson.Same(ToJson(Nulled(a)), ToJson(Nulled(b)))
  {
    NulledIsJson(a);
    NulledIsJson(b);
    HashedIsValid(fields, a, metadata);
    HashedIsValid(fields, b, metadata);
    HashTellsCommandsApart(sha, Hashed(fields, a, metadata), Hashed(fields, b, metadata));
    SameMetadata(metadata);
  }
}
