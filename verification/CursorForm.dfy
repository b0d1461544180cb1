/** Exactly which texts are page cursors: the object behind them, property by property. */
module CursorForm {
  import opened Options
  import opened CodeUnits
  import opened Json
  import opened Base64Url
  import opened CursorText

  /** The property that counts under a key: the last one written. */
  ghost predicate LastUnder(entries: seq<Entry>, key: Text, value: Json) {
    exists i :: 0 <= i < |entries| && IsLast(entries, i, key) && entries[i].value == value
  }

  ghost predicate IsLast(entries: seq<Entry>, i: nat, key: Text)
    requires i < |entries|
  {
    entries[i].key == key && forall j :: i < j < |entries| ==> entries[j].key != key
  }

  ghost predicate HasNo(entries: seq<Entry>, key: Text) {
    forall i :: 0 <= i < |entries| ==> entries[i].key != key
  }

  lemma {:induction false} FieldIsLast(entries: seq<Entry>, key: Text)
    ensures Field(entries, key).None? ==> HasNo(entries, key)
    ensures Field(entries, key).Some? ==> LastUnder(entries, key, Field(entries, key).value)
  {
    if entries != [] {
      var n := |entries| - 1;
      if entries[n].key == key {
        assert IsLast(entries, n, key);
      } else {
        FieldIsLast(entries[..n], key);
        if Field(entries, key).Some? {
          var i :| 0 <= i < n && IsLast(entries[..n], i, key) && entries[..n][i].value == Field(entries, key).value;
          assert IsLast(entries, i, key);
        }
      }
    }
  }

  lemma LastIsOne(entries: seq<Entry>, key: Text, v: Json, w: Json)
    requires LastUnder(entries, key, v) && LastUnder(entries, key, w)
    ensures v == w && !HasNo(entries, key)
  {
    var i :| 0 <= i < |entries| && IsLast(entries, i, key) && entries[i].value == v;
    var j :| 0 <= j < |entries| && IsLast(entries, j, key) && entries[j].value == w;
    assert i == j;
  }

  lemma FieldExactly(entries: seq<Entry>, key: Text, value: Json)
    ensures Field(entries, key) == Some(value) <==> LastUnder(entries, key, value)
    ensures Field(entries, key) == None <==> HasNo(entries, key)
  {
    FieldIsLast(entries, key);
    if Field(entries, key).Some? && LastUnder(entries, key, value) {
      LastIsOne(entries, key, value, Field(entries, key).value);
    }
    if Field(entries, key).Some? {
      LastIsOne(entries, key, Field(entries, key).value, Field(entries, key).value);
    }
  }

  // ---- The keys of a cursor ----

  /** The three fields are there, and there is nothing besides them but a scope. */
  ghost predicate OnlyCursorFields(entries: seq<Entry>) {
    && !HasNo(entries, Units("v")) && !HasNo(entries, Units("startTime")) && !HasNo(entries, Units("id"))
    && forall i :: 0 <= i < |entries| ==>
         entries[i].key in {Units("v"), Units("startTime"), Units("id"), Units("scope")}
  }

  lemma KeyIn(entries: seq<Entry>, key: Text)
    ensures key in KeySet(entries) <==> !HasNo(entries, key)
  {
    if key in KeySet(entries) {
      var e :| e in entries && e.key == key;
      var i :| 0 <= i < |entries| && entries[i] == e;
      assert entries[i].key == key;
    }
    if !HasNo(entries, key) {
      var i :| 0 <= i < |entries| && entries[i].key == key;
      assert entries[i] in entries;
    }
  }

  lemma FieldNamesApart()
    ensures |{V, START_TIME, ID}| == 3 && |{V, START_TIME, ID, SCOPE}| == 4
    ensures SCOPE !in {V, START_TIME, ID}
  {
    assert |V| == 1 && |START_TIME| == 9 && |ID| == 2 && |SCOPE| == 5;
    assert {V, START_TIME, ID} == {V} + {START_TIME} + {ID};
    assert {V, START_TIME, ID, SCOPE} == {V, START_TIME, ID} + {SCOPE};
  }

  lemma SameSize<T>(some: set<T>, all: set<T>)
    requires some <= all && |all| <= |some|
    ensures some == all
  {
    assert |all - some| == |all| - |some|;
  }

  lemma KeysOfCursor(keys: set<Text>)
    requires V in keys && START_TIME in keys && ID in keys
    ensures |keys| == 3 || (|keys| == 4 && SCOPE in keys) <==> keys <= {V, START_TIME, ID, SCOPE}
  {
    FieldNamesApart();
    if |keys| == 3 {
      SameSize({V, START_TIME, ID}, keys);
    } else if |keys| == 4 && SCOPE in keys {
      SameSize({V, START_TIME, ID, SCOPE}, keys);
    }
    if keys <= {V, START_TIME, ID, SCOPE} {
      assert keys == if SCOPE in keys then {V, START_TIME, ID, SCOPE} else {V, START_TIME, ID};
    }
  }

  lemma FieldsExactly(entries: seq<Entry>)
    ensures HasCursorFields(entries) <==> OnlyCursorFields(entries)
  {
    KeyIn(entries, V);
    KeyIn(entries, START_TIME);
    KeyIn(entries, ID);
    if V in KeySet(entries) && START_TIME in KeySet(entries) && ID in KeySet(entries) {
      KeysOfCursor(KeySet(entries));
      forall i | 0 <= i < |entries|
        ensures entries[i].key in KeySet(entries)
      {
        assert entries[i] in entries;
      }
      if OnlyCursorFields(entries) {
        forall key | key in KeySet(entries)
          ensures key in {V, START_TIME, ID, SCOPE}
        {
          var e :| e in entries && e.key == key;
        }
      }
    }
  }

  // ---- What is accepted ----

  /** Five groups of hexadecimal digits, 8, 4, 4, 4 and 12 of them, with hyphens between. */
  predicate IsUuidText(t: Text) {
    && |t| == 36 && t[8] == t[13] == t[18] == t[23] == '-' as int
    && forall i :: 0 <= i < 36 && i !in {8, 13, 18, 23} ==>
         48 <= t[i] <= 57 || 65 <= t[i] <= 70 || 97 <= t[i] <= 102
  }

  /** A capital letter, then up to 63 capital letters, digits and underscores. */
  predicate IsScopeText(t: Text) {
    && 1 <= |t| <= 64 && 65 <= t[0] <= 90
    && forall i :: 0 <= i < |t| ==> 65 <= t[i] <= 90 || 48 <= t[i] <= 57 || t[i] == '_' as int
  }

  lemma SameForms(t: Text)
    ensures IsUuid(t) <==> IsUuidText(t)
    ensures IsScope(t) <==> IsScopeText(t)
  {
  }

  /** The object says exactly this payload: version one, a canonical time, a UUID, and maybe a scope. */
  ghost predicate Says(parse: DateParser, isOne: Text -> bool, entries: seq<Entry>, p: Payload) {
    && OnlyCursorFields(entries)
    && (exists lexeme :: LastUnder(entries, Units("v"), Number(lexeme)) && isOne(lexeme))
    && LastUnder(entries, Units("startTime"), String(p.startTime))
    && parse(p.startTime).Some? && IsoOf(parse(p.startTime).value) == p.startTime
    && LastUnder(entries, Units("id"), String(p.id)) && IsUuidText(p.id)
    && match p.scope
       case None => HasNo(entries, Units("scope"))
       case Some(scope) => LastUnder(entries, Units("scope"), String(scope)) && IsScopeText(scope)
  }

  lemma PayloadSays(parse: DateParser, isOne: Text -> bool, entries: seq<Entry>, p: Payload)
    requires PayloadOf(parse, isOne, entries) == Some(p)
    ensures Says(parse, isOne, entries, p)
  {
    SameForms(p.id);
    SameForms(if p.scope.Some? then p.scope.value else []);
    FieldsExactly(entries);
    FieldExactly(entries, V, Field(entries, V).value);
    FieldExactly(entries, START_TIME, String(p.startTime));
    FieldExactly(entries, ID, String(p.id));
    FieldExactly(entries, SCOPE, if p.scope.Some? then String(p.scope.value) else Null);
  }

  lemma SaysPayload(parse: DateParser, isOne: Text -> bool, entries: seq<Entry>, p: Payload)
    requires Says(parse, isOne, entries, p)
    ensures PayloadOf(parse, isOne, entries) == Some(p)
  {
    SameForms(p.id);
    SameForms(if p.scope.Some? then p.scope.value else []);
    var lexeme :| LastUnder(entries, V, Number(lexeme)) && isOne(lexeme);
    FieldsExactly(entries);
    FieldExactly(entries, V, Number(lexeme));
    FieldExactly(entries, START_TIME, String(p.startTime));
    FieldExactly(entries, ID, String(p.id));
    FieldExactly(entries, SCOPE, if p.scope.Some? then String(p.scope.value) else Null);
  }

  /** The text is the base64url form of this JSON object. */
  ghost predicate IsTextOf(t: Text, entries: seq<Entry>) {
    FromBase64Url(t).Some? && Parse(FromBase64Url(t).value) == Some(Object(entries))
  }

  lemma NotAnObject(parse: DateParser, isOne: Text -> bool, t: Text)
    requires forall entries :: !IsTextOf(t, entries)
    ensures DecodeText(parse, isOne, t) == None
  {
    if FromBase64Url(t).Some? && Parse(FromBase64Url(t).value).Some? {
      var v := Parse(FromBase64Url(t).value).value;
      if v.Object? {
        assert IsTextOf(t, v.entries);
      }
    }
  }

  lemma ObjectText(parse: DateParser, isOne: Text -> bool, t: Text, entries: seq<Entry>)
    requires IsTextOf(t, entries)
    ensures DecodeText(parse, isOne, t) == PayloadOf(parse, isOne, entries)
    ensures forall other :: IsTextOf(t, other) ==> other == entries
  {
  }

  /**
   * A text is accepted as this cursor exactly when it is the base64url form of a JSON object that
   * says so, with no other property. Anything else is an invalid cursor.
   */
  lemma {:induction false} AcceptedExactly(parse: DateParser, isOne: Text -> bool, t: Text, p: Payload)
    ensures DecodeCursor(parse, isOne, Given(t)) == Ok(Some(p)) <==>
      exists entries :: IsTextOf(t, entries) && Says(parse, isOne, entries, p)
    ensures DecodeCursor(parse, isOne, Given(t)).Ok? ==> DecodeCursor(parse, isOne, Given(t)).value.Some?
    ensures DecodeCursor(parse, isOne, Undefined) == Ok(None)
    ensures DecodeCursor(parse, isOne, NotText) == Err(InvalidCursor)
  {
    if entries :| IsTextOf(t, entries) {
      ObjectText(parse, isOne, t, entries);
      if PayloadOf(parse, isOne, entries) == Some(p) {
        PayloadSays(parse, isOne, entries, p);
      } else if Says(parse, isOne, entries, p) {
        SaysPayload(parse, isOne, entries, p);
      }
    } else {
      NotAnObject(parse, isOne, t);
    }
  }
}
