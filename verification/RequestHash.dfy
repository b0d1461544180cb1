/** The request hash of a normalized Admin command: equal exactly for equal commands. */
module RequestHash {
  import opened Options
  import opened CodeUnits
  import opened Json
  import opened CanonicalJson
  import Timestamps

  // ---- Numbers as text ----

  function DigitUnit(d: nat): Unit
    requires d < 10
  {
    '0' as int + d
  }

  function NatText(n: nat): (t: Text)
    ensures t != []
  {
    if n < 10 then [DigitUnit(n)] else NatText(n / 10) + [DigitUnit(n % 10)]
  }

  /** `String` of an integer. */
  function IntText(n: int): Text {
    if n < 0 then ['-' as int] + NatText(-n) else NatText(n)
  }

  function NatOf(t: Text): int {
    if t == [] then 0 else 10 * NatOf(t[..|t| - 1]) + (t[|t| - 1] - '0' as int)
  }

  lemma {:induction false} NatTextReads(n: nat)
    ensures NatOf(NatText(n)) == n && IsIntegerPart(NatText(n)) && (n > 0 ==> NatText(n)[0] != '0' as int)
  {
    if n >= 10 {
      NatTextReads(n / 10);
      assert NatText(n)[..|NatText(n)| - 1] == NatText(n / 10);
    } else {
      assert [DigitUnit(n)][..0] == [];
    }
  }

  /** The text has a minus sign exactly for negative numbers, then the digits, with no leading zero. */
  lemma IntTextReads(n: int)
    ensures
      var t := IntText(n);
      var digits := if n < 0 then t[1..] else t;
      && t != [] && (t[0] == '-' as int <==> n < 0)
      && digits != [] && NatOf(digits) == (if n < 0 then -n else n) && (digits[0] == '0' as int ==> n == 0)
      && forall i :: 0 <= i < |digits| ==> '0' as int <= digits[i] <= '9' as int
  {
    NatTextReads(if n < 0 then -n else n);
    NatTextDigits(if n < 0 then -n else n);
    if n < 0 {
      assert IntText(n)[1..] == NatText(-n);
    }
  }

  lemma {:induction false} NatTextDigits(n: nat)
    ensures forall i :: 0 <= i < |NatText(n)| ==> '0' as int <= NatText(n)[i] <= '9' as int
  {
    if n >= 10 {
      NatTextDigits(n / 10);
    }
  }

  lemma IntTextInjective(m: int, n: int)
    ensures IntText(m) == IntText(n) <==> m == n
  {
    NatTextReads(if m < 0 then -m else m);
    NatTextReads(if n < 0 then -n else n);
    if m < 0 {
      assert IntText(m)[1..] == NatText(-m);
    }
    if n < 0 {
      assert IntText(n)[1..] == NatText(-n);
    }
  }

  lemma {:induction false} NoMarks(t: Text, marks: set<Unit>)
    requires forall i :: 0 <= i < |t| ==> t[i] !in marks
    ensures Find(t, marks) == |t|
  {
    if t != [] {
      NoMarks(t[1..], marks);
    }
  }

  lemma IntTextIsNumber(n: int)
    ensures IsNumber(IntText(n))
  {
    var t := NatText(if n < 0 then -n else n);
    NatTextReads(if n < 0 then -n else n);
    var unsigned := if IntText(n)[0] == '-' as int then IntText(n)[1..] else IntText(n);
    assert unsigned == t;
    NoMarks(t, EXPONENT);
    assert t[..|t|] == t;
    NoMarks(t, POINT);
  }

  // ---- Object literals ----

  lemma ZipKeys(keys: seq<Text>, values: seq<Json>, key: Text)
    requires |keys| == |values|
    ensures HasKey(Zip(keys, values), key) <==> key in keys
  {
    if key in keys {
      var i :| 0 <= i < |keys| && keys[i] == key;
      assert Zip(keys, values)[i].key == key;
    }
  }

  /** Literals with the same keys are equal exactly when their values are, one by one. */
  lemma ZipSame(keys: seq<Text>, xs: seq<Json>, ys: seq<Json>)
    requires |keys| == |xs| == |ys| && DistinctTexts(keys)
    ensures Same(Object(Zip(keys, xs)), Object(Zip(keys, ys))) <==> forall i :: 0 <= i < |keys| ==> Same(xs[i], ys[i])
  {
    var p, q := Zip(keys, xs), Zip(keys, ys);
    forall key
      ensures HasKey(p, key) <==> HasKey(q, key)
    {
      ZipKeys(keys, xs, key);
      ZipKeys(keys, ys, key);
    }
    if Same(Object(p), Object(q)) {
      forall i | 0 <= i < |keys|
        ensures Same(xs[i], ys[i])
      {
        assert p[i].key == q[i].key;
        assert Same(p[i].value, q[i].value);
      }
    }
  }

  // ---- The hashed fields ----

  datatype Kind = Command | EvidenceAccess

  /** A command after normalization; the request is null when none was given. */
  datatype Input = Input(
    adminId: Text, action: Text, kind: Kind, resourceType: Text, resourceId: Text, requestKey: Text,
    catalogVersion: int, reasonCode: Option<Text>, decisionReasonText: Option<Text>,
    expectedVersion: Option<int>, expectedTimestamp: Option<int>, request: Json, metadata: Json)
  {
    predicate Valid() {
      && Printable(request) && Printable(metadata) && ProperKeys(request) && ProperKeys(metadata)
      && (expectedTimestamp.Some? ==> Timestamps.IsTimeValue(expectedTimestamp.value))
    }
  }

  function KindText(kind: Kind): Text {
    if kind.Command? then Units("COMMAND") else Units("EVIDENCE_ACCESS")
  }

  function TextOrNull(t: Option<Text>): Json {
    if t.Some? then String(t.value) else Null
  }

  function VersionOrNull(n: Option<int>): Json {
    if n.Some? then Number(IntText(n.value)) else Null
  }

  function TimestampOrNull(ms: Option<int>): Json {
    if ms.Some? then String(Units(Timestamps.IsoText(ms.value))) else Null
  }

  const FIRST_KEYS := [
    Units("adminId"), Units("action"), Units("kind"), Units("resourceType"), Units("resourceId"), Units("requestKey"),
    Units("reasonCatalogVersion"), Units("reasonCode")]

  const TEXT_KEY := Units("decisionReasonText")

  const LAST_KEYS := [Units("expectedVersion"), Units("expectedTimestamp"), Units("request"), Units("metadata")]

  function FirstValues(i: Input): seq<Json> {
    [String(i.adminId), String(i.action), String(KindText(i.kind)), String(i.resourceType), String(i.resourceId),
     String(i.requestKey), Number(IntText(i.catalogVersion)), TextOrNull(i.reasonCode)]
  }

  function LastValues(i: Input): seq<Json> {
    [VersionOrNull(i.expectedVersion), TimestampOrNull(i.expectedTimestamp), i.request, i.metadata]
  }

  function Keys(i: Input): seq<Text> {
    FIRST_KEYS + ((if i.decisionReasonText.None? then [] else [TEXT_KEY]) + LAST_KEYS)
  }

  function Values(i: Input): (r: seq<Json>)
    ensures |r| == |Keys(i)|
  {
    FirstValues(i) + ((if i.decisionReasonText.None? then [] else [String(i.decisionReasonText.value)]) + LastValues(i))
  }

  /** The object that is hashed; without a decision text it has no such key at all. */
  function HashFields(i: Input): Json {
    Object(Zip(Keys(i), Values(i)))
  }

  function RequestHash(sha: Text -> string, i: Input): string {
    sha(CanonicalJson.CanonicalJson(HashFields(i)))
  }

  /** The same command: every field equal, the two JSON fields up to key order. */
  ghost predicate SameInput(a: Input, b: Input) {
    && a.(request := Null, metadata := Null) == b.(request := Null, metadata := Null)
    && Same(a.request, b.request) && Same(a.metadata, b.metadata)
  }

  // ---- Equal fields ----

  /** The length and the third unit tell all the keys apart. */
  function Mark(key: Text): int {
    1000 * |key| + if |key| > 2 then key[2] else 0
  }

  lemma KeyMarks()
    ensures |FIRST_KEYS| == 8 && |LAST_KEYS| == 4
    ensures Mark(FIRST_KEYS[0]) == 7109 && Mark(FIRST_KEYS[1]) == 6116 && Mark(FIRST_KEYS[2]) == 4110
    ensures Mark(FIRST_KEYS[3]) == 12115 && Mark(FIRST_KEYS[4]) == 10115 && Mark(FIRST_KEYS[5]) == 10113
    ensures Mark(FIRST_KEYS[6]) == 20097 && Mark(FIRST_KEYS[7]) == 10097 && Mark(TEXT_KEY) == 18099
    ensures Mark(LAST_KEYS[0]) == 15112 && Mark(LAST_KEYS[1]) == 17112
    ensures Mark(LAST_KEYS[2]) == 7113 && Mark(LAST_KEYS[3]) == 8116
  {
  }

  lemma KeysDistinct(i: Input)
    ensures DistinctTexts(Keys(i))
  {
    KeyMarks();
    var keys := Keys(i);
    forall a, b | 0 <= a < b < |keys|
      ensures Mark(keys[a]) != Mark(keys[b])
    {
    }
  }

  lemma TextKeyIsOptional(i: Input)
    ensures TEXT_KEY in Keys(i) <==> i.decisionReasonText.Some?
  {
    KeyMarks();
    if i.decisionReasonText.Some? {
      assert Keys(i)[8] == TEXT_KEY;
    } else {
      forall k | 0 <= k < |Keys(i)|
        ensures Mark(Keys(i)[k]) != Mark(TEXT_KEY)
      {
      }
    }
  }

  lemma SameKinds(k: Kind, l: Kind)
    ensures KindText(k) == KindText(l) <==> k == l
  {
    assert |KindText(Command)| == 7 && |KindText(EvidenceAccess)| == 15;
  }

  lemma SameTimestamps(m: Option<int>, n: Option<int>)
    requires m.Some? ==> Timestamps.IsTimeValue(m.value)
    requires n.Some? ==> Timestamps.IsTimeValue(n.value)
    ensures Same(TimestampOrNull(m), TimestampOrNull(n)) <==> m == n
  {
    if m.Some? && n.Some? {
      UnitsInjective(Timestamps.IsoText(m.value), Timestamps.IsoText(n.value));
      if Timestamps.IsoText(m.value) == Timestamps.IsoText(n.value) {
        Timestamps.IsoTextInjective(m.value, n.value);
      }
    }
  }

  lemma SameVersions(m: Option<int>, n: Option<int>)
    ensures Same(VersionOrNull(m), VersionOrNull(n)) <==> m == n
  {
    if m.Some? && n.Some? {
      IntTextInjective(m.value, n.value);
    }
  }

  /** Two value lists are equal, one by one. */
  ghost predicate AllSame(xs: seq<Json>, ys: seq<Json>) {
    |xs| == |ys| && forall i :: 0 <= i < |xs| ==> Same(xs[i], ys[i])
  }

  lemma AllSameJoin(a: seq<Json>, b: seq<Json>, c: seq<Json>, d: seq<Json>)
    requires |a| == |c| && |b| == |d|
    ensures AllSame(a + b, c + d) <==> AllSame(a, c) && AllSame(b, d)
  {
    if AllSame(a + b, c + d) {
      forall i | 0 <= i < |a|
        ensures Same(a[i], c[i])
      {
        assert (a + b)[i] == a[i] && (c + d)[i] == c[i];
      }
      forall i | 0 <= i < |b|
        ensures Same(b[i], d[i])
      {
        assert (a + b)[|a| + i] == b[i] && (c + d)[|a| + i] == d[i];
      }
    }
  }

  lemma SameFirstValues(a: Input, b: Input)
    ensures AllSame(FirstValues(a), FirstValues(b)) <==>
      && a.adminId == b.adminId && a.action == b.action && a.kind == b.kind && a.resourceType == b.resourceType
      && a.resourceId == b.resourceId && a.requestKey == b.requestKey && a.catalogVersion == b.catalogVersion
      && a.reasonCode == b.reasonCode
  {
    SameKinds(a.kind, b.kind);
    IntTextInjective(a.catalogVersion, b.catalogVersion);
    var xs, ys := FirstValues(a), FirstValues(b);
    if AllSame(xs, ys) {
      assert Same(xs[0], ys[0]) && Same(xs[1], ys[1]) && Same(xs[2], ys[2]) && Same(xs[3], ys[3]);
      assert Same(xs[4], ys[4]) && Same(xs[5], ys[5]) && Same(xs[6], ys[6]) && Same(xs[7], ys[7]);
    }
  }

  lemma SameLastValues(a: Input, b: Input)
    requires a.Valid() && b.Valid()
    ensures AllSame(LastValues(a), LastValues(b)) <==>
      && a.expectedVersion == b.expectedVersion && a.expectedTimestamp == b.expectedTimestamp
      && Same(a.request, b.request) && Same(a.metadata, b.metadata)
  {
    SameVersions(a.expectedVersion, b.expectedVersion);
    SameTimestamps(a.expectedTimestamp, b.expectedTimestamp);
    FourSame(LastValues(a), LastValues(b));
  }

  lemma FourSame(xs: seq<Json>, ys: seq<Json>)
    requires |xs| == |ys| == 4
    ensures AllSame(xs, ys) <==>
      Same(xs[0], ys[0]) && Same(xs[1], ys[1]) && Same(xs[2], ys[2]) && Same(xs[3], ys[3])
  {
  }

  function TextValues(i: Input): seq<Json> {
    if i.decisionReasonText.None? then [] else [String(i.decisionReasonText.value)]
  }

  lemma SameTextValues(a: Input, b: Input)
    requires a.decisionReasonText.Some? <==> b.decisionReasonText.Some?
    ensures AllSame(TextValues(a), TextValues(b)) <==> a.decisionReasonText == b.decisionReasonText
  {
    if AllSame(TextValues(a), TextValues(b)) && a.decisionReasonText.Some? {
      assert Same(TextValues(a)[0], TextValues(b)[0]);
    }
  }

  lemma SameValues(a: Input, b: Input)
    requires a.Valid() && b.Valid() && (a.decisionReasonText.Some? <==> b.decisionReasonText.Some?)
    ensures AllSame(Values(a), Values(b)) <==> SameInput(a, b)
  {
    AllSameJoin(FirstValues(a), TextValues(a) + LastValues(a), FirstValues(b), TextValues(b) + LastValues(b));
    AllSameJoin(TextValues(a), LastValues(a), TextValues(b), LastValues(b));
    SameFirstValues(a, b);
    SameTextValues(a, b);
    SameLastValues(a, b);
  }

  lemma SameFields(a: Input, b: Input)
    requires a.Valid() && b.Valid()
    ensures Same(HashFields(a), HashFields(b)) <==> SameInput(a, b)
  {
    if a.decisionReasonText.Some? == b.decisionReasonText.Some? {
      KeysDistinct(a);
      ZipSame(Keys(a), Values(a), Values(b));
      SameValues(a, b);
    } else {
      TextKeyIsOptional(a);
      TextKeyIsOptional(b);
      ZipKeys(Keys(a), Values(a), TEXT_KEY);
      ZipKeys(Keys(b), Values(b), TEXT_KEY);
    }
  }

  // ---- The hash ----

  predicate Hashable(values: seq<Json>) {
    forall i :: 0 <= i < |values| ==> Printable(values[i]) && ProperKeys(values[i])
  }

  lemma FirstHashable(i: Input)
    ensures Hashable(FirstValues(i))
  {
    var values := FirstValues(i);
    IntTextIsNumber(i.catalogVersion);
    forall k | 0 <= k < |values|
      ensures Printable(values[k]) && ProperKeys(values[k])
    {
      assert values[k] == values[6] || values[k].String? || values[k].Null?;
    }
  }

  lemma LastHashable(i: Input)
    requires i.Valid()
    ensures Hashable(LastValues(i))
  {
    if i.expectedVersion.Some? {
      IntTextIsNumber(i.expectedVersion.value);
    }
  }

  lemma FieldsPrint(i: Input)
    requires i.Valid()
    ensures Printable(HashFields(i)) && ProperKeys(HashFields(i))
  {
    KeysDistinct(i);
    FirstHashable(i);
    LastHashable(i);
    assert Hashable(TextValues(i));
    assert Values(i) == FirstValues(i) + (TextValues(i) + LastValues(i));
    assert Hashable(Values(i));
  }

  /**
   * With a collision-free hash, two commands share a request hash exactly when all of their
   * normalized fields agree.
   */
  lemma HashTellsCommandsApart(sha: Text -> string, a: Input, b: Input)
    requires forall s, t :: sha(s) == sha(t) ==> s == t
    requires a.Valid() && b.Valid()
    ensures RequestHash(sha, a) == RequestHash(sha, b) <==> SameInput(a, b)
  {
    FieldsPrint(a);
    FieldsPrint(b);
    CanonicalJson.CanonicalJsonIsInjective(HashFields(a), HashFields(b));
    SameFields(a, b);
  }
}
