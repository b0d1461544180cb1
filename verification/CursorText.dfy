/** Page cursors as text: JSON in base64url, checked on the way in and on the way out. */
module CursorText {
  import opened Options
  import opened CodeUnits
  import opened Json
  import opened Base64Url
  import Calendar
  import Timestamps
  import TextOrder
  import KeysetPage
  import MemberHistory
  import ReportList
  import RowOrder

  datatype Payload = Payload(startTime: Text, id: Text, scope: Option<Text>)

  datatype CursorError = InvalidCursor

  /** The query value as it arrives. */
  datatype Given = Undefined | NotText | Given(text: Text)

  /** What `new Date` makes of a text: a time value, or an invalid date. */
  type DateParser = Text -> Option<int>

  /** ECMA-262 fixes the reading of ISO texts, and keeps every date within the time range. */
  ghost predicate ReadsIsoDates(parse: DateParser) {
    && (forall ms :: Timestamps.IsTimeValue(ms) ==> parse(IsoOf(ms)) == Some(ms))
    && (forall t :: parse(t).Some? ==> Timestamps.IsTimeValue(parse(t).value))
  }

  /** The instant whose ISO text this is, if there is one. */
  ghost function ReadIso(t: Text): Option<int> {
    if exists ms :: Timestamps.IsTimeValue(ms) && IsoOf(ms) == t then
      var ms :| Timestamps.IsTimeValue(ms) && IsoOf(ms) == t;
      Some(ms)
    else None
  }

  /** Such a reading exists: ISO texts name their instants. */
  lemma IsoDatesCanBeRead()
    ensures ReadsIsoDates(t => ReadIso(t))
  {
    forall ms | Timestamps.IsTimeValue(ms)
      ensures ReadIso(IsoOf(ms)) == Some(ms)
    {
      var read := ReadIso(IsoOf(ms)).value;
      UnitsInjective(Timestamps.IsoText(read), Timestamps.IsoText(ms));
      Timestamps.IsoTextInjective(read, ms);
    }
  }

  function IsoOf(ms: int): Text {
    Units(Timestamps.IsoText(ms))
  }

  predicate IsHexUnit(u: Unit) {
    HexValue(u).Some?
  }

  predicate IsUuid(t: Text) {
    && |t| == 36
    && forall i :: 0 <= i < 36 ==>
         if i == 8 || i == 13 || i == 18 || i == 23 then t[i] == '-' as int else IsHexUnit(t[i])
  }

  predicate IsScopeUnit(u: Unit) {
    'A' as int <= u <= 'Z' as int || '0' as int <= u <= '9' as int || u == '_' as int
  }

  predicate IsScope(t: Text) {
    1 <= |t| <= 64 && 'A' as int <= t[0] <= 'Z' as int && forall i :: 0 <= i < |t| ==> IsScopeUnit(t[i])
  }

  const V := Units("v")
  const START_TIME := Units("startTime")
  const ID := Units("id")
  const SCOPE := Units("scope")
  const ONE := Units("1")

  function CursorKeys(scope: Option<Text>): seq<Text> {
    if scope.None? then [V, START_TIME, ID] else [V, START_TIME, ID, SCOPE]
  }

  function CursorValues(iso: Text, id: Text, scope: Option<Text>): seq<Json> {
    [Number(ONE), String(iso), String(id)] + if scope.None? then [] else [String(scope.value)]
  }

  function CursorJson(iso: Text, id: Text, scope: Option<Text>): Json {
    Object(Zip(CursorKeys(scope), CursorValues(iso, id, scope)))
  }

  function EncodeCursor(parse: DateParser, p: Payload): Result<Text, CursorError> {
    var startTime := parse(p.startTime);
    if startTime.None? || !IsUuid(p.id) || (p.scope.Some? && !IsScope(p.scope.value)) then Err(InvalidCursor)
    else
      match ToBase64Url(Print(CursorJson(IsoOf(startTime.value), p.id, p.scope)))
      case Some(t) => Ok(t)
      case None => Err(InvalidCursor)
  }

  /** A property's value: the last one written under its key. */
  function Field(entries: seq<Entry>, key: Text): Option<Json> {
    if entries == [] then None
    else if entries[|entries| - 1].key == key then Some(entries[|entries| - 1].value)
    else Field(entries[..|entries| - 1], key)
  }

  function KeySet(entries: seq<Entry>): set<Text> {
    set e | e in entries :: e.key
  }

  predicate HasCursorFields(entries: seq<Entry>) {
    var keys := KeySet(entries);
    && V in keys && START_TIME in keys && ID in keys
    && (|keys| == 3 || (|keys| == 4 && SCOPE in keys))
  }

  predicate IsText(v: Option<Json>) {
    v.Some? && v.value.String?
  }

  predicate IsCanonicalDate(parse: DateParser, t: Text) {
    parse(t).Some? && IsoOf(parse(t).value) == t
  }

  /** The payload behind a parsed object, if every field is as `encodeCursor` writes it. */
  function PayloadOf(parse: DateParser, isOne: Text -> bool, entries: seq<Entry>): Option<Payload> {
    var v := Field(entries, V);
    var startTime := Field(entries, START_TIME);
    var id := Field(entries, ID);
    var scope := Field(entries, SCOPE);
    if !HasCursorFields(entries) then None
    else if v.None? || !v.value.Number? || !isOne(v.value.lexeme) then None
    else if !IsText(startTime) || !IsCanonicalDate(parse, startTime.value.chars) then None
    else if !IsText(id) || !IsUuid(id.value.chars) then None
    else if scope.Some? && (!IsText(scope) || !IsScope(scope.value.chars)) then None
    else Some(Payload(startTime.value.chars, id.value.chars, if scope.Some? then Some(scope.value.chars) else None))
  }

  function DecodeText(parse: DateParser, isOne: Text -> bool, t: Text): Option<Payload> {
    match FromBase64Url(t)
    case None => None
    case Some(bytes) =>
      match Parse(bytes)
      case Some(Object(entries)) => PayloadOf(parse, isOne, entries)
      case _ => None
  }

  function DecodeCursor(parse: DateParser, isOne: Text -> bool, value: Given): Result<Option<Payload>, CursorError> {
    match value
    case Undefined => Ok(None)
    case NotText => Err(InvalidCursor)
    case Given(text) =>
      match DecodeText(parse, isOne, text)
      case Some(p) => Ok(Some(p))
      case None => Err(InvalidCursor)
  }

  // ---- Object literals read by key ----

  lemma {:induction false} FieldOfLiteral(keys: seq<Text>, values: seq<Json>, i: nat)
    requires |keys| == |values| && DistinctTexts(keys) && i < |keys|
    ensures Field(Zip(keys, values), keys[i]) == Some(values[i])
  {
    var n := |keys| - 1;
    if i < n {
      FieldOfLiteral(keys[..n], values[..n], i);
      assert Zip(keys, values)[..n] == Zip(keys[..n], values[..n]);
    }
  }

  lemma {:induction false} NoSuchField(keys: seq<Text>, values: seq<Json>, key: Text)
    requires |keys| == |values| && key !in keys
    ensures Field(Zip(keys, values), key) == None
  {
    if keys != [] {
      var n := |keys| - 1;
      assert keys[n] in keys;
      NoSuchField(keys[..n], values[..n], key);
      assert Zip(keys, values)[..n] == Zip(keys[..n], values[..n]);
    }
  }

  lemma {:induction false} KeysOfLiteral(keys: seq<Text>, values: seq<Json>)
    requires |keys| == |values| && DistinctTexts(keys)
    ensures KeySet(Zip(keys, values)) == (set k | k in keys) && |KeySet(Zip(keys, values))| == |keys|
  {
    LiteralKeys(keys, values);
    DistinctSize(keys);
  }

  lemma LiteralKeys(keys: seq<Text>, values: seq<Json>)
    requires |keys| == |values|
    ensures KeySet(Zip(keys, values)) == set k | k in keys
  {
    forall k | k in keys
      ensures k in KeySet(Zip(keys, values))
    {
      var i :| 0 <= i < |keys| && keys[i] == k;
      assert Zip(keys, values)[i].key == k;
    }
  }

  lemma {:induction false} DistinctSize(keys: seq<Text>)
    requires DistinctTexts(keys)
    ensures |set k | k in keys| == |keys|
  {
    if keys != [] {
      var n := |keys| - 1;
      DistinctSize(keys[..n]);
      assert (set k | k in keys) == (set k | k in keys[..n]) + {keys[n]};
    } else {
      assert (set k | k in keys) == {};
    }
  }

  lemma CursorKeysDistinct(scope: Option<Text>)
    ensures DistinctTexts(CursorKeys(scope)) && (scope.None? ==> SCOPE !in CursorKeys(scope))
  {
    assert |V| == 1 && |START_TIME| == 9 && |ID| == 2 && |SCOPE| == 5;
  }

  lemma LiteralIsCursor(iso: Text, id: Text, scope: Option<Text>)
    ensures
      var entries := Zip(CursorKeys(scope), CursorValues(iso, id, scope));
      && HasCursorFields(entries)
      && Field(entries, V) == Some(Number(ONE)) && Field(entries, START_TIME) == Some(String(iso))
      && Field(entries, ID) == Some(String(id))
      && Field(entries, SCOPE) == (if scope.None? then None else Some(String(scope.value)))
  {
    var keys := CursorKeys(scope);
    var values := CursorValues(iso, id, scope);
    CursorKeysDistinct(scope);
    KeysOfLiteral(keys, values);
    assert keys[0] == V && keys[1] == START_TIME && keys[2] == ID;
    FieldOfLiteral(keys, values, 0);
    FieldOfLiteral(keys, values, 1);
    FieldOfLiteral(keys, values, 2);
    if scope.None? {
      NoSuchField(keys, values, SCOPE);
    } else {
      FieldOfLiteral(keys, values, 3);
    }
  }

  // ---- The printed cursor is plain ASCII ----

  predicate IsPlainUnit(u: Unit) {
    0x20 <= u < 0x7F && u != QUOTE && u != BACKSLASH
  }

  predicate IsPlain(t: Text) {
    forall i :: 0 <= i < |t| ==> IsPlainUnit(t[i])
  }

  lemma {:induction false} PlainIsUnescaped(t: Text)
    requires IsPlain(t)
    ensures Escaped(t) == t
  {
    if t != [] {
      PlainIsUnescaped(t[1..]);
      HeadAndTail(t);
    }
  }

  lemma BytesJoin(a: Text, b: Text)
    requires IsBytes(a) && IsBytes(b)
    ensures IsBytes(a + b)
  {
  }

  lemma QuotedBytes(t: Text)
    requires IsPlain(t)
    ensures IsBytes(Quoted(t))
  {
    PlainIsUnescaped(t);
  }

  lemma EntryBytes(e: Entry)
    requires IsPlain(e.key) && (e.value == Number(ONE) || (e.value.String? && IsPlain(e.value.chars)))
    ensures IsBytes(PrintEntry(e))
  {
    QuotedBytes(e.key);
    if e.value.String? {
      QuotedBytes(e.value.chars);
    }
    BytesJoin([COLON], Print(e.value));
    BytesJoin(Quoted(e.key), [COLON] + Print(e.value));
  }

  lemma {:induction false} EntriesBytes(entries: seq<Entry>)
    requires forall i :: 0 <= i < |entries| ==> IsBytes(PrintEntry(entries[i]))
    ensures IsBytes(PrintEntries(entries))
  {
    if |entries| > 1 {
      EntriesBytes(entries[1..]);
      BytesJoin([COMMA], PrintEntries(entries[1..]));
      BytesJoin(PrintEntry(entries[0]), [COMMA] + PrintEntries(entries[1..]));
    }
  }

  lemma PlainKeys()
    ensures IsPlain(V) && IsPlain(START_TIME) && IsPlain(ID) && IsPlain(SCOPE)
  {
  }

  lemma CursorEntryBytes(iso: Text, id: Text, scope: Option<Text>, i: nat)
    requires IsPlain(iso) && IsPlain(id) && (scope.Some? ==> IsPlain(scope.value)) && i < |CursorKeys(scope)|
    ensures IsBytes(PrintEntry(Entry(CursorKeys(scope)[i], CursorValues(iso, id, scope)[i])))
  {
    PlainKeys();
    EntryBytes(Entry(CursorKeys(scope)[i], CursorValues(iso, id, scope)[i]));
  }

  lemma ObjectBytes(entries: seq<Entry>)
    requires forall i :: 0 <= i < |entries| ==> IsBytes(PrintEntry(entries[i]))
    ensures IsBytes(Print(Object(entries))) && Print(Object(entries)) != []
  {
    EntriesBytes(entries);
    BytesJoin(PrintEntries(entries), [CLOSE_OBJECT]);
    BytesJoin([OPEN_OBJECT], PrintEntries(entries) + [CLOSE_OBJECT]);
  }

  lemma CursorBytes(iso: Text, id: Text, scope: Option<Text>)
    requires IsPlain(iso) && IsPlain(id) && (scope.Some? ==> IsPlain(scope.value))
    ensures IsBytes(Print(CursorJson(iso, id, scope))) && Print(CursorJson(iso, id, scope)) != []
  {
    var entries := Zip(CursorKeys(scope), CursorValues(iso, id, scope));
    forall i | 0 <= i < |entries|
      ensures IsBytes(PrintEntry(entries[i]))
    {
      CursorEntryBytes(iso, id, scope, i);
    }
    ObjectBytes(entries);
  }

  predicate IsPlainString(s: string) {
    forall i :: 0 <= i < |s| ==> IsPlainUnit(s[i] as int)
  }

  lemma PlainDigits(n: nat, w: nat)
    ensures IsPlainString(TextOrder.Digits(TextOrder.Decimal, n, w))
  {
    TextOrder.DigitsChars(TextOrder.Decimal, n, w);
  }

  lemma PlainJoin(a: string, b: string)
    requires IsPlainString(a) && IsPlainString(b)
    ensures IsPlainString(a + b)
  {
  }

  lemma PlainPart(x: string, sep: string, n: nat, w: nat)
    requires IsPlainString(x) && IsPlainString(sep)
    ensures IsPlainString(x + (sep + TextOrder.Digits(TextOrder.Decimal, n, w)))
  {
    PlainDigits(n, w);
    PlainJoin(sep, TextOrder.Digits(TextOrder.Decimal, n, w));
    PlainJoin(x, sep + TextOrder.Digits(TextOrder.Decimal, n, w));
  }

  lemma PlainYear(year: int)
    ensures IsPlainString(Timestamps.YearText(Timestamps.Iso, year))
  {
    PlainDigits(if year < 0 then -year else year, 4);
    PlainDigits(if year < 0 then -year else year, 6);
  }

  lemma PlainSeconds(second: int)
    ensures IsPlainString(Timestamps.SecondText(Timestamps.Iso, second))
  {
    var minute := second / 60;
    var hour := minute / 60;
    var c := Calendar.CivilOf(hour / 24);
    PlainYear(c.year);
    PlainPart(Timestamps.YearText(Timestamps.Iso, c.year), "-", c.month + 1, 2);
    PlainPart(Timestamps.MonthText(Timestamps.Iso, c), "-", c.day, 2);
    PlainPart(Timestamps.DateText(Timestamps.Iso, hour / 24), "T", hour % 24, 2);
    PlainPart(Timestamps.HourText(Timestamps.Iso, hour), ":", minute % 60, 2);
    PlainPart(Timestamps.MinuteText(Timestamps.Iso, minute), ":", second % 60, 2);
  }

  lemma PlainIso(ms: int)
    ensures IsPlain(IsoOf(ms))
  {
    PlainSeconds(ms / 1000);
    PlainPart(Timestamps.SecondText(Timestamps.Iso, ms / 1000), ".", ms % 1000, 3);
    PlainJoin(
      Timestamps.SecondText(Timestamps.Iso, ms / 1000) + ("." + TextOrder.Digits(TextOrder.Decimal, ms % 1000, 3)),
      "Z");
  }

  lemma OneIsNumber()
    ensures IsNumber(ONE)
  {
    assert ONE == ['1' as int];
  }

  // ---- Round trips ----

  lemma CursorPrintable(iso: Text, id: Text, scope: Option<Text>)
    ensures Printable(CursorJson(iso, id, scope))
  {
    OneIsNumber();
  }

  predicate Encodable(parse: DateParser, p: Payload) {
    parse(p.startTime).Some? && IsUuid(p.id) && (p.scope.Some? ==> IsScope(p.scope.value))
  }

  lemma PrintedCursor(iso: Text, id: Text, scope: Option<Text>) returns (t: Text)
    requires IsPlain(iso) && IsPlain(id) && (scope.Some? ==> IsPlain(scope.value))
    ensures ToBase64Url(Print(CursorJson(iso, id, scope))) == Some(t)
    ensures FromBase64Url(t) == Some(Print(CursorJson(iso, id, scope)))
    ensures Parse(Print(CursorJson(iso, id, scope))) == Some(CursorJson(iso, id, scope))
  {
    CursorBytes(iso, id, scope);
    Base64UrlRoundTrip(Print(CursorJson(iso, id, scope)));
    CursorPrintable(iso, id, scope);
    JsonRoundTrip(CursorJson(iso, id, scope));
    t := ToBase64Url(Print(CursorJson(iso, id, scope))).value;
  }

  lemma LiteralPayload(parse: DateParser, isOne: Text -> bool, ms: int, id: Text, scope: Option<Text>)
    requires isOne(ONE) && parse(IsoOf(ms)) == Some(ms) && IsUuid(id) && (scope.Some? ==> IsScope(scope.value))
    ensures
      PayloadOf(parse, isOne, Zip(CursorKeys(scope), CursorValues(IsoOf(ms), id, scope)))
      == Some(Payload(IsoOf(ms), id, scope))
  {
    LiteralIsCursor(IsoOf(ms), id, scope);
  }

  lemma EncodesTo(parse: DateParser, isOne: Text -> bool, p: Payload, ms: int) returns (t: Text)
    requires isOne(ONE) && Encodable(parse, p) && parse(p.startTime) == Some(ms) && parse(IsoOf(ms)) == Some(ms)
    ensures EncodeCursor(parse, p) == Ok(t)
    ensures DecodeText(parse, isOne, t) == Some(Payload(IsoOf(ms), p.id, p.scope))
  {
    PlainIso(ms);
    t := PrintedCursor(IsoOf(ms), p.id, p.scope);
    LiteralPayload(parse, isOne, ms, p.id, p.scope);
  }

  /** Whatever payload is encoded decodes to itself, its time in canonical form. */
  lemma {:induction false} CursorRoundTrip(parse: DateParser, isOne: Text -> bool, p: Payload)
    requires ReadsIsoDates(parse) && isOne(ONE)
    ensures EncodeCursor(parse, p).Ok? <==> Encodable(parse, p)
    ensures
      EncodeCursor(parse, p).Ok? ==>
        DecodeCursor(parse, isOne, Given(EncodeCursor(parse, p).value))
        == Ok(Some(p.(startTime := IsoOf(parse(p.startTime).value))))
  {
    if Encodable(parse, p) {
      var t := EncodesTo(parse, isOne, p, parse(p.startTime).value);
    }
  }

  /** Every accepted cursor holds a payload that can be encoded again, and that is then unchanged. */
  lemma {:induction false} AcceptedCursorsEncode(parse: DateParser, isOne: Text -> bool, value: Given)
    requires ReadsIsoDates(parse) && isOne(ONE)
    requires DecodeCursor(parse, isOne, value).Ok? && DecodeCursor(parse, isOne, value).value.Some?
    ensures
      var p := DecodeCursor(parse, isOne, value).value.value;
      EncodeCursor(parse, p).Ok? && DecodeCursor(parse, isOne, Given(EncodeCursor(parse, p).value)) == Ok(Some(p))
  {
    CursorRoundTrip(parse, isOne, DecodeCursor(parse, isOne, value).value.value);
  }

  // ---- The cursors the lists mint ----

  /** The payload that a list encodes for a cursor. */
  function Minted(c: KeysetPage.Cursor): Payload {
    Payload(IsoOf(c.ms), Units(TextOrder.UuidText(c.id)), if c.scope.Some? then Some(Units(c.scope.value)) else None)
  }

  predicate HexExcept(s: string, hyphens: set<nat>) {
    forall i :: 0 <= i < |s| ==> if i in hyphens then s[i] == '-' else IsHexUnit(s[i] as int)
  }

  /** A hyphen in front of all others moves them one place on. */
  lemma HyphenBefore(s: string, i: nat, hyphens: set<nat>, moved: set<nat>)
    requires i <= |s| && HexExcept(s, hyphens) && (forall h :: h in hyphens ==> h >= i)
    requires forall k :: k in moved <==> k == i || (k > 0 && k - 1 in hyphens)
    ensures HexExcept(TextOrder.Hyphen(s, i), moved)
  {
    var t := TextOrder.Hyphen(s, i);
    forall k | 0 <= k < |t|
      ensures if k in moved then t[k] == '-' else IsHexUnit(t[k] as int)
    {
      if k > i {
        assert k in moved <==> k - 1 in hyphens;
      } else if k < i {
        assert k !in moved;
      }
    }
  }

  lemma HexExceptIsUuid(s: string)
    requires |s| == 36 && HexExcept(s, {8, 13, 18, 23})
    ensures IsUuid(Units(s))
  {
  }

  lemma HyphensInPlace(s: string)
    requires |s| == 32 && HexExcept(s, {})
    ensures
      HexExcept(
        TextOrder.Hyphen(TextOrder.Hyphen(TextOrder.Hyphen(TextOrder.Hyphen(s, 20), 16), 12), 8), {8, 13, 18, 23})
  {
    HyphenBefore(s, 20, {}, {20});
    var a := TextOrder.Hyphen(s, 20);
    HyphenBefore(a, 16, {20}, {16, 21});
    var b := TextOrder.Hyphen(a, 16);
    HyphenBefore(b, 12, {16, 21}, {12, 17, 22});
    var c := TextOrder.Hyphen(b, 12);
    HyphenBefore(c, 8, {12, 17, 22}, {8, 13, 18, 23});
  }

  lemma UuidTextIsUuid(id: nat)
    ensures IsUuid(Units(TextOrder.UuidText(id)))
  {
    var s := TextOrder.Digits(TextOrder.Hex, id, 32);
    TextOrder.DigitsChars(TextOrder.Hex, id, 32);
    forall i | 0 <= i < 32
      ensures IsHexUnit(s[i] as int)
    {
      assert s[i] in "0123456789abcdef";
    }
    HyphensInPlace(s);
    HexExceptIsUuid(TextOrder.UuidText(id));
  }

  /** A minted cursor comes back as the millisecond, identity and scope it was minted from. */
  lemma MintedCursorsSurvive(parse: DateParser, isOne: Text -> bool, c: KeysetPage.Cursor)
    requires ReadsIsoDates(parse) && isOne(ONE)
    requires Timestamps.IsTimeValue(c.ms) && (c.scope.Some? ==> IsScope(Units(c.scope.value)))
    ensures EncodeCursor(parse, Minted(c)).Ok?
    ensures
      var decoded := DecodeCursor(parse, isOne, Given(EncodeCursor(parse, Minted(c)).value));
      && decoded.Ok? && decoded.value.Some?
      && var p := decoded.value.value;
         && parse(p.startTime) == Some(c.ms) && p.id == Units(TextOrder.UuidText(c.id))
         && p.scope == if c.scope.None? then None else Some(Units(c.scope.value))
  {
    UuidTextIsUuid(c.id);
    CursorRoundTrip(parse, isOne, Minted(c));
  }

  predicate IsScopeString(s: string) {
    forall i :: 0 <= i < |s| ==> IsScopeUnit(s[i] as int)
  }

  lemma ScopeJoin(a: string, b: string)
    requires IsScopeString(a) && IsScopeString(b)
    ensures IsScopeString(a + b)
  {
  }

  lemma FilterTexts(side: RowOrder.Side, q: MemberHistory.Query)
    ensures IsScopeString(MemberHistory.RoleName(side)) && |MemberHistory.RoleName(side)| <= 6
    ensures IsScopeString(MemberHistory.RoleFilterText(q)) && |MemberHistory.RoleFilterText(q)| <= 6
    ensures IsScopeString(MemberHistory.QuestFilterText(q)) && |MemberHistory.QuestFilterText(q)| == 1
  {
  }

  lemma AssignmentTexts(q: MemberHistory.Query)
    ensures IsScopeString(MemberHistory.AssignmentFilterText(q)) && |MemberHistory.AssignmentFilterText(q)| <= 21
  {
  }

  /** An underscore and another word keep a text within the scope alphabet. */
  lemma ScopeWord(word: string, rest: string)
    requires IsScopeString(word) && IsScopeString(rest)
    ensures IsScopeString(word + ("_" + rest)) && |word + ("_" + rest)| == |word| + 1 + |rest|
  {
    ScopeJoin("_", rest);
    ScopeJoin(word, "_" + rest);
  }

  lemma ScopeStringIsScope(s: string)
    requires IsScopeString(s) && 1 <= |s| <= 64 && 'A' as int <= s[0] as int <= 'Z' as int
    ensures IsScope(Units(s))
  {
  }

  /** Both lists' scopes pass the cursor's own scope check, whatever the filters. */
  lemma {:induction false} ScopesEncode(side: RowOrder.Side, q: MemberHistory.Query)
    ensures IsScope(Units(ReportList.KindName(side)))
    ensures IsScope(Units(MemberHistory.CursorScope(side, q)))
  {
    FilterTexts(side, q);
    AssignmentTexts(q);
    var filters := MemberHistory.QuestFilterText(q) + ("_" + MemberHistory.AssignmentFilterText(q));
    ScopeWord(MemberHistory.QuestFilterText(q), MemberHistory.AssignmentFilterText(q));
    ScopeWord(MemberHistory.RoleFilterText(q), filters);
    ScopeWord(MemberHistory.RoleName(side), MemberHistory.RoleFilterText(q) + ("_" + filters));
    ScopeJoin("MH_", MemberHistory.RoleName(side) + ("_" + (MemberHistory.RoleFilterText(q) + ("_" + filters))));
    ScopeStringIsScope(MemberHistory.CursorScope(side, q));
    ScopeStringIsScope(ReportList.KindName(side));
  }
}
