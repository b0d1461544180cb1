/**
 * JSON texts over UTF-16 code units: what `JSON.stringify` prints for a tree, and the grammar of
 * RFC 8259 (sections 2 to 7) that `JSON.parse` reads.
 */
module Json {
  import opened CodeUnits
  import opened Options

  /** A number is carried as the text that `String` prints for it, or that was parsed. */
  datatype Json =
    | Null
    | Bool(value: bool)
    | Number(lexeme: Text)
    | String(chars: Text)
    | Array(items: seq<Json>)
    | Object(entries: seq<Entry>)

  /** One property; an object keeps its properties in order. */
  datatype Entry = Entry(key: Text, value: Json)

  predicate DistinctTexts(keys: seq<Text>) {
    forall i, j :: 0 <= i < j < |keys| ==> keys[i] != keys[j]
  }

  /** The properties of an object literal. */
  function Zip(keys: seq<Text>, values: seq<Json>): (entries: seq<Entry>)
    requires |keys| == |values|
  {
    seq(|keys|, i requires 0 <= i < |keys| => Entry(keys[i], values[i]))
  }

  const QUOTE: Unit := '\"' as int
  const BACKSLASH: Unit := '\\' as int
  const COMMA: Unit := ',' as int
  const COLON: Unit := ':' as int
  const OPEN_ARRAY: Unit := '[' as int
  const CLOSE_ARRAY: Unit := ']' as int
  const OPEN_OBJECT: Unit := '{' as int
  const CLOSE_OBJECT: Unit := '}' as int

  // ---- Strings ----

  predicate IsLead(u: Unit) {
    0xD800 <= u <= 0xDBFF
  }

  predicate IsTrail(u: Unit) {
    0xDC00 <= u <= 0xDFFF
  }

  function HexUnit(d: nat): Unit
    requires d < 16
  {
    if d < 10 then '0' as int + d else 'a' as int + d - 10
  }

  function HexValue(u: Unit): (d: Option<nat>)
    ensures d.Some? ==> d.value < 16
  {
    if '0' as int <= u <= '9' as int then Some(u - '0' as int)
    else if 'a' as int <= u <= 'f' as int then Some(u - 'a' as int + 10)
    else if 'A' as int <= u <= 'F' as int then Some(u - 'A' as int + 10)
    else None
  }

  function UnicodeEscape(u: Unit): Text
    requires 0 <= u < 0x1_0000
  {
    [BACKSLASH, 'u' as int, HexUnit(u / 4096), HexUnit(u / 256 % 16), HexUnit(u / 16 % 16), HexUnit(u % 16)]
  }

  /** The letter of a two-character escape. */
  function ShortEscape(u: Unit): Option<Unit> {
    if u == QUOTE || u == BACKSLASH then Some(u)
    else if u == 8 then Some('b' as int)
    else if u == 9 then Some('t' as int)
    else if u == 10 then Some('n' as int)
    else if u == 12 then Some('f' as int)
    else if u == 13 then Some('r' as int)
    else None
  }

  function EscapedUnit(u: Unit): Text {
    if ShortEscape(u).Some? then [BACKSLASH, ShortEscape(u).value]
    else if 0 <= u < 0x20 || IsLead(u) || IsTrail(u) then UnicodeEscape(u)
    else [u]
  }

  /** Surrogate pairs print as they are; a lone surrogate is escaped. */
  function Escaped(s: Text): Text {
    if s == [] then []
    else if |s| > 1 && IsLead(s[0]) && IsTrail(s[1]) then s[..2] + Escaped(s[2..])
    else EscapedUnit(s[0]) + Escaped(s[1..])
  }

  function Quoted(s: Text): Text {
    [QUOTE] + (Escaped(s) + [QUOTE])
  }

  lemma Regroup(a: Text, b: Text, c: Text, d: Text)
    ensures (a + (b + c)) + d == a + (b + (c + d))
    ensures (a + b) + c == a + (b + c)
  {
  }

  datatype Parsed<+T> = Parsed(value: T, rest: Text)

  /** The unit behind an escape letter. */
  function Unescaped(letter: Unit): Option<Unit> {
    if letter == QUOTE || letter == BACKSLASH || letter == '/' as int then Some(letter)
    else if letter == 'b' as int then Some(8)
    else if letter == 't' as int then Some(9)
    else if letter == 'n' as int then Some(10)
    else if letter == 'f' as int then Some(12)
    else if letter == 'r' as int then Some(13)
    else None
  }

  function FourHex(t: Text): Option<Unit>
    requires |t| >= 4
  {
    if HexValue(t[0]).Some? && HexValue(t[1]).Some? && HexValue(t[2]).Some? && HexValue(t[3]).Some?
    then
      Some(
        4096 * HexValue(t[0]).value + 256 * HexValue(t[1]).value + 16 * HexValue(t[2]).value + HexValue(t[3]).value)
    else None
  }

  /** One character of a string: itself, or an escape. */
  function ParseChar(t: Text): (p: Option<Parsed<Unit>>)
    requires t != []
    ensures p.Some? ==> |p.value.rest| < |t|
  {
    if 0 <= t[0] < 0x20 || t[0] == QUOTE then None
    else if t[0] != BACKSLASH then Some(Parsed(t[0], t[1..]))
    else if |t| >= 2 && Unescaped(t[1]).Some? then Some(Parsed(Unescaped(t[1]).value, t[2..]))
    else if |t| >= 6 && t[1] == 'u' as int && FourHex(t[2..]).Some? then Some(Parsed(FourHex(t[2..]).value, t[6..]))
    else None
  }

  /** The characters up to and including the closing quote. */
  function ParseChars(t: Text): (p: Option<Parsed<Text>>)
    ensures p.Some? ==> |p.value.rest| < |t|
    decreases |t|
  {
    if t == [] then None
    else if t[0] == QUOTE then Some(Parsed([], t[1..]))
    else
      var first := ParseChar(t);
      if first.None? then None
      else
        var others := ParseChars(first.value.rest);
        if others.None? then None else Some(Parsed([first.value.value] + others.value.value, others.value.rest))
  }

  lemma ShortRoundTrip(u: Unit, letter: Unit, rest: Text)
    requires ShortEscape(u) == Some(letter)
    ensures ParseChar([BACKSLASH, letter] + rest) == Some(Parsed(u, rest))
  {
    assert ([BACKSLASH, letter] + rest)[2..] == rest;
  }

  lemma HexDigit(d: nat)
    requires d < 16
    ensures HexValue(HexUnit(d)) == Some(d)
  {
  }

  lemma FourHexReads(a: nat, b: nat, c: nat, d: nat, rest: Text)
    requires a < 16 && b < 16 && c < 16 && d < 16
    ensures FourHex([HexUnit(a), HexUnit(b), HexUnit(c), HexUnit(d)] + rest) == Some(4096 * a + 256 * b + 16 * c + d)
  {
    HexDigit(a);
    HexDigit(b);
    HexDigit(c);
    HexDigit(d);
  }

  lemma UnicodeRoundTrip(u: Unit, rest: Text)
    requires 0 <= u < 0x1_0000
    ensures ParseChar(UnicodeEscape(u) + rest) == Some(Parsed(u, rest))
  {
    var t := UnicodeEscape(u) + rest;
    var a, b, c, d := u / 4096, u / 256 % 16, u / 16 % 16, u % 16;
    HexSum(u);
    FourHexReads(a, b, c, d, rest);
    assert t[2..] == [HexUnit(a), HexUnit(b), HexUnit(c), HexUnit(d)] + rest;
    assert t[6..] == rest;
  }

  lemma CharRoundTrip(u: Unit, rest: Text)
    ensures ParseChar(EscapedUnit(u) + rest) == Some(Parsed(u, rest))
    ensures EscapedUnit(u)[0] != QUOTE
  {
    if ShortEscape(u).Some? {
      ShortRoundTrip(u, ShortEscape(u).value, rest);
    } else if 0 <= u < 0x20 || IsLead(u) || IsTrail(u) {
      UnicodeRoundTrip(u, rest);
    } else {
      assert ([u] + rest)[1..] == rest;
    }
  }

  lemma HexSum(u: Unit)
    ensures u == 4096 * (u / 4096) + 256 * (u / 256 % 16) + 16 * (u / 16 % 16) + u % 16
  {
    assert u / 16 == 16 * (u / 16 / 16) + u / 16 % 16;
    assert u / 16 / 16 == u / 256;
    assert u / 256 / 16 == u / 4096;
  }

  lemma RawChar(u: Unit, rest: Text)
    requires IsLead(u) || IsTrail(u)
    ensures ParseChar([u] + rest) == Some(Parsed(u, rest))
  {
    assert ([u] + rest)[1..] == rest;
  }

  lemma CharsStep(t: Text, u: Unit, r: Text, s: Text, rest: Text)
    requires t != [] && t[0] != QUOTE && ParseChar(t) == Some(Parsed(u, r)) && ParseChars(r) == Some(Parsed(s, rest))
    ensures ParseChars(t) == Some(Parsed([u] + s, rest))
  {
  }

  lemma CharsJoin(u: Unit, more: Text, tail: Text, s: Text, rest: Text)
    requires ParseChars(more + tail) == Some(Parsed(s, rest))
    ensures ParseChars((EscapedUnit(u) + more) + tail) == Some(Parsed([u] + s, rest))
  {
    CharRoundTrip(u, more + tail);
    Regroup(EscapedUnit(u), more, tail, []);
    CharsStep(EscapedUnit(u) + (more + tail), u, more + tail, s, rest);
  }

  lemma PairJoin(pair: Text, more: Text, tail: Text, s: Text, rest: Text)
    requires |pair| == 2 && IsLead(pair[0]) && IsTrail(pair[1]) && ParseChars(more + tail) == Some(Parsed(s, rest))
    ensures ParseChars((pair + more) + tail) == Some(Parsed(pair + s, rest))
  {
    PairStep(pair[0], pair[1], more + tail, s, rest);
    assert (pair + more) + tail == [pair[0]] + ([pair[1]] + (more + tail));
    assert pair + s == [pair[0]] + ([pair[1]] + s);
  }

  /** A quoted text reads back as it was, whatever its code units. */
  lemma {:induction false} CharsRoundTrip(s: Text, rest: Text)
    ensures ParseChars(Escaped(s) + ([QUOTE] + rest)) == Some(Parsed(s, rest))
    decreases |s|
  {
    var tail := [QUOTE] + rest;
    if s == [] {
      assert Escaped(s) + tail == tail && tail[1..] == rest;
    } else if |s| > 1 && IsLead(s[0]) && IsTrail(s[1]) {
      CharsRoundTrip(s[2..], rest);
      PairJoin(s[..2], Escaped(s[2..]), tail, s[2..], rest);
      assert s == s[..2] + s[2..];
    } else {
      CharsRoundTrip(s[1..], rest);
      CharsJoin(s[0], Escaped(s[1..]), tail, s[1..], rest);
      HeadAndTail(s);
    }
  }

  lemma PairStep(lead: Unit, trail: Unit, after: Text, s: Text, rest: Text)
    requires IsLead(lead) && IsTrail(trail) && ParseChars(after) == Some(Parsed(s, rest))
    ensures ParseChars([lead] + ([trail] + after)) == Some(Parsed([lead] + ([trail] + s), rest))
  {
    RawChar(trail, after);
    CharsStep([trail] + after, trail, after, s, rest);
    RawChar(lead, [trail] + after);
    CharsStep([lead] + ([trail] + after), lead, [trail] + after, [trail] + s, rest);
  }

  // ---- Numbers ----

  predicate IsDigit(u: Unit) {
    '0' as int <= u <= '9' as int
  }

  predicate Digits(t: Text) {
    t != [] && forall i :: 0 <= i < |t| ==> IsDigit(t[i])
  }

  /** Where a mark first stands, or the end. */
  function Find(t: Text, marks: set<Unit>): (i: nat)
    ensures i <= |t| && (forall j :: 0 <= j < i ==> t[j] !in marks) && (i < |t| ==> t[i] in marks)
  {
    if t == [] || t[0] in marks then 0 else 1 + Find(t[1..], marks)
  }

  const EXPONENT: set<Unit> := {'e' as int, 'E' as int}
  const POINT: set<Unit> := {'.' as int}

  predicate IsExponent(t: Text) {
    t == [] || Digits(if |t| > 1 && t[1] in {'+' as int, '-' as int} then t[2..] else t[1..])
  }

  predicate IsFraction(t: Text) {
    t == [] || Digits(t[1..])
  }

  predicate IsIntegerPart(t: Text) {
    Digits(t) && (|t| > 1 ==> t[0] != '0' as int)
  }

  /** RFC 8259, section 6: an optional minus, an integer part, an optional fraction and exponent. */
  predicate IsNumber(t: Text) {
    var unsigned := if t != [] && t[0] == '-' as int then t[1..] else t;
    var e := Find(unsigned, EXPONENT);
    var p := Find(unsigned[..e], POINT);
    IsIntegerPart(unsigned[..p]) && IsFraction(unsigned[p..e]) && IsExponent(unsigned[e..])
  }

  predicate IsNumberUnit(u: Unit) {
    IsDigit(u) || u in {'+' as int, '-' as int, '.' as int, 'e' as int, 'E' as int}
  }

  /** How far number characters run: no valid text has another one behind a number. */
  function NumberRun(t: Text): (n: nat)
    ensures n <= |t| && forall i :: 0 <= i < n ==> IsNumberUnit(t[i])
    ensures n < |t| ==> !IsNumberUnit(t[n])
  {
    if t == [] || !IsNumberUnit(t[0]) then 0 else 1 + NumberRun(t[1..])
  }

  predicate AllNumberUnits(t: Text) {
    forall i :: 0 <= i < |t| ==> IsNumberUnit(t[i])
  }

  lemma UnitsJoin(a: Text, b: Text)
    requires AllNumberUnits(a) && AllNumberUnits(b)
    ensures AllNumberUnits(a + b)
  {
  }

  lemma FractionUnits(t: Text)
    requires IsFraction(t) && (t != [] ==> t[0] in POINT)
    ensures AllNumberUnits(t)
  {
    if t != [] {
      UnitsJoin([t[0]], t[1..]);
      assert t == [t[0]] + t[1..];
    }
  }

  lemma ExponentUnits(t: Text)
    requires IsExponent(t) && (t != [] ==> t[0] in EXPONENT)
    ensures AllNumberUnits(t)
  {
    if |t| > 1 && t[1] in {'+' as int, '-' as int} {
      UnitsJoin(t[..2], t[2..]);
      assert t == t[..2] + t[2..];
    } else if t != [] {
      UnitsJoin([t[0]], t[1..]);
      assert t == [t[0]] + t[1..];
    }
  }

  lemma DigitsAreUnits(t: Text)
    requires Digits(t)
    ensures AllNumberUnits(t)
  {
  }

  lemma PartsJoin(t: Text, e: nat, p: nat)
    requires p <= e <= |t| && AllNumberUnits(t[..p]) && AllNumberUnits(t[p..e]) && AllNumberUnits(t[e..])
    ensures AllNumberUnits(t)
  {
    assert t[..e] == t[..p] + t[p..e];
    UnitsJoin(t[..p], t[p..e]);
    assert t == t[..e] + t[e..];
    UnitsJoin(t[..e], t[e..]);
  }

  lemma UnsignedUnits(t: Text, e: nat, p: nat)
    requires e == Find(t, EXPONENT) && p == Find(t[..e], POINT)
    requires IsIntegerPart(t[..p]) && IsFraction(t[p..e]) && IsExponent(t[e..])
    ensures AllNumberUnits(t) && t != []
  {
    FractionUnits(t[p..e]);
    ExponentUnits(t[e..]);
    DigitsAreUnits(t[..p]);
    PartsJoin(t, e, p);
  }

  lemma NumberUnits(t: Text)
    requires IsNumber(t)
    ensures t != [] && AllNumberUnits(t)
  {
    var unsigned := if t != [] && t[0] == '-' as int then t[1..] else t;
    var e := Find(unsigned, EXPONENT);
    UnsignedUnits(unsigned, e, Find(unsigned[..e], POINT));
    if unsigned != t {
      UnitsJoin([t[0]], unsigned);
      assert t == [t[0]] + unsigned;
    }
  }

  lemma {:induction false} RunStops(t: Text, rest: Text)
    requires AllNumberUnits(t) && (rest != [] ==> !IsNumberUnit(rest[0]))
    ensures NumberRun(t + rest) == |t|
  {
    if t == [] {
      assert t + rest == rest;
    } else {
      RunStops(t[1..], rest);
      assert (t + rest)[1..] == t[1..] + rest;
    }
  }

  // ---- Values ----

  /** A tree that `JSON.stringify` can print: its numbers are number texts. */
  predicate Printable(v: Json) {
    match v
    case Number(lexeme) => IsNumber(lexeme)
    case Array(items) => forall i :: 0 <= i < |items| ==> Printable(items[i])
    case Object(entries) => forall i :: 0 <= i < |entries| ==> Printable(entries[i].value)
    case _ => true
  }

  /** The text of a tree, properties in the order they stand. */
  function Print(v: Json): Text
    decreases v, 1
  {
    match v
    case Null => Units("null")
    case Bool(b) => if b then Units("true") else Units("false")
    case Number(lexeme) => lexeme
    case String(s) => Quoted(s)
    case Array(items) => [OPEN_ARRAY] + (PrintItems(items) + [CLOSE_ARRAY])
    case Object(entries) => [OPEN_OBJECT] + (PrintEntries(entries) + [CLOSE_OBJECT])
  }

  function PrintItems(items: seq<Json>): Text
    decreases items, 0
  {
    if items == [] then []
    else if |items| == 1 then Print(items[0])
    else Print(items[0]) + ([COMMA] + PrintItems(items[1..]))
  }

  function PrintEntry(e: Entry): Text
    decreases e, 0
  {
    Quoted(e.key) + ([COLON] + Print(e.value))
  }

  function PrintEntries(entries: seq<Entry>): Text
    decreases entries, 0
  {
    if entries == [] then []
    else if |entries| == 1 then PrintEntry(entries[0])
    else PrintEntry(entries[0]) + ([COMMA] + PrintEntries(entries[1..]))
  }

  predicate IsBlank(u: Unit) {
    u == 0x20 || u == 0x09 || u == 0x0A || u == 0x0D
  }

  function SkipBlanks(t: Text): (s: Text)
    ensures |s| <= |t|
  {
    if t != [] && IsBlank(t[0]) then SkipBlanks(t[1..]) else t
  }

  predicate StartsWith(t: Text, word: Text) {
    |word| <= |t| && t[..|word|] == word
  }

  function ParseWord(t: Text, word: Text, v: Json): (p: Option<Parsed<Json>>)
    requires word != []
    ensures p.Some? ==> |p.value.rest| < |t|
  {
    if StartsWith(t, word) then Some(Parsed(v, t[|word|..])) else None
  }

  function ParseNumber(t: Text): (p: Option<Parsed<Json>>)
    ensures p.Some? ==> |p.value.rest| < |t|
  {
    var n := NumberRun(t);
    if n > 0 && IsNumber(t[..n]) then Some(Parsed(Number(t[..n]), t[n..])) else None
  }

  function ParseValue(text: Text): (p: Option<Parsed<Json>>)
    ensures p.Some? ==> |p.value.rest| < |text|
    decreases |text|, 1
  {
    var t := SkipBlanks(text);
    if t == [] then None
    else if t[0] == 'n' as int then ParseWord(t, Units("null"), Null)
    else if t[0] == 't' as int then ParseWord(t, Units("true"), Bool(true))
    else if t[0] == 'f' as int then ParseWord(t, Units("false"), Bool(false))
    else if t[0] == QUOTE then
      var s := ParseChars(t[1..]);
      if s.None? then None else Some(Parsed(String(s.value.value), s.value.rest))
    else if t[0] == OPEN_ARRAY then
      var inner := SkipBlanks(t[1..]);
      if inner != [] && inner[0] == CLOSE_ARRAY then Some(Parsed(Array([]), inner[1..]))
      else
        var items := ParseItems(t[1..]);
        if items.None? then None else Some(Parsed(Array(items.value.value), items.value.rest))
    else if t[0] == OPEN_OBJECT then
      var inner := SkipBlanks(t[1..]);
      if inner != [] && inner[0] == CLOSE_OBJECT then Some(Parsed(Object([]), inner[1..]))
      else
        var entries := ParseEntries(t[1..]);
        if entries.None? then None else Some(Parsed(Object(entries.value.value), entries.value.rest))
    else ParseNumber(t)
  }

  /** One or more items and the closing bracket. */
  function ParseItems(t: Text): (p: Option<Parsed<seq<Json>>>)
    ensures p.Some? ==> |p.value.rest| < |t|
    decreases |t|, 2
  {
    var first := ParseValue(t);
    if first.None? then None
    else
      var s := SkipBlanks(first.value.rest);
      if s == [] then None
      else if s[0] == CLOSE_ARRAY then Some(Parsed([first.value.value], s[1..]))
      else if s[0] != COMMA then None
      else
        var others := ParseItems(s[1..]);
        if others.None? then None else Some(Parsed([first.value.value] + others.value.value, others.value.rest))
  }

  function ParseEntry(text: Text): (p: Option<Parsed<Entry>>)
    ensures p.Some? ==> |p.value.rest| < |text|
    decreases |text|, 2
  {
    var t := SkipBlanks(text);
    if t == [] || t[0] != QUOTE then None
    else
      var key := ParseChars(t[1..]);
      if key.None? then None
      else
        var s := SkipBlanks(key.value.rest);
        if s == [] || s[0] != COLON then None
        else
          var v := ParseValue(s[1..]);
          if v.None? then None else Some(Parsed(Entry(key.value.value, v.value.value), v.value.rest))
  }

  /** One or more properties and the closing brace. */
  function ParseEntries(t: Text): (p: Option<Parsed<seq<Entry>>>)
    ensures p.Some? ==> |p.value.rest| < |t|
    decreases |t|, 3
  {
    var first := ParseEntry(t);
    if first.None? then None
    else
      var s := SkipBlanks(first.value.rest);
      if s == [] then None
      else if s[0] == CLOSE_OBJECT then Some(Parsed([first.value.value], s[1..]))
      else if s[0] != COMMA then None
      else
        var others := ParseEntries(s[1..]);
        if others.None? then None else Some(Parsed([first.value.value] + others.value.value, others.value.rest))
  }

  /** `JSON.parse`: one value with nothing but blanks around it. */
  function Parse(t: Text): Option<Json> {
    var v := ParseValue(t);
    if v.Some? && SkipBlanks(v.value.rest) == [] then Some(v.value.value) else None
  }

  // ---- What is printed reads back ----

  /** A text that ends whatever stands before it. */
  predicate Ends(rest: Text) {
    rest == [] || rest[0] in {COMMA, CLOSE_ARRAY, CLOSE_OBJECT}
  }

  /** The first unit of a printed value tells it from blanks and closing brackets. */
  predicate StartsValue(t: Text) {
    t != [] && !IsBlank(t[0]) && t[0] !in {COMMA, COLON, CLOSE_ARRAY, CLOSE_OBJECT}
  }

  lemma PrintStarts(v: Json)
    requires Printable(v)
    ensures StartsValue(Print(v))
  {
    match v
    case Number(lexeme) => NumberUnits(lexeme);
    case Null => assert Units("null")[0] == 'n' as int;
    case Bool(b) => assert Units("true")[0] == 't' as int && Units("false")[0] == 'f' as int;
    case _ =>
  }

  lemma WordReadsBack(word: Text, v: Json, rest: Text)
    requires word != []
    ensures ParseWord(word + rest, word, v) == Some(Parsed(v, rest))
  {
    assert (word + rest)[..|word|] == word && (word + rest)[|word|..] == rest;
  }

  lemma NumberReadsBack(lexeme: Text, rest: Text)
    requires IsNumber(lexeme) && Ends(rest)
    ensures ParseValue(lexeme + rest) == Some(Parsed(Number(lexeme), rest))
  {
    NumberUnits(lexeme);
    RunStops(lexeme, rest);
    var t := lexeme + rest;
    assert t[..|lexeme|] == lexeme && t[|lexeme|..] == rest;
    assert t[0] == lexeme[0] && IsNumberUnit(t[0]);
    assert SkipBlanks(t) == t;
  }

  lemma StringReadsBack(s: Text, rest: Text)
    ensures ParseValue(Quoted(s) + rest) == Some(Parsed(String(s), rest))
  {
    CharsRoundTrip(s, rest);
    var t := Quoted(s) + rest;
    assert t[1..] == Escaped(s) + ([QUOTE] + rest);
  }

  lemma LiteralReadsBack(v: Json, rest: Text)
    requires v.Null? || v.Bool?
    ensures ParseValue(Print(v) + rest) == Some(Parsed(v, rest))
  {
    assert Units("null")[0] == 'n' as int && Units("true")[0] == 't' as int && Units("false")[0] == 'f' as int;
    WordReadsBack(Print(v), v, rest);
  }

  /** Whatever tree was printed, parsing its text gives the tree and what stood behind it. */
  lemma {:induction false} PrintReadsBack(v: Json, rest: Text)
    requires Printable(v) && Ends(rest)
    ensures ParseValue(Print(v) + rest) == Some(Parsed(v, rest))
    decreases v, 1
  {
    match v
    case Number(lexeme) => NumberReadsBack(lexeme, rest);
    case String(s) => StringReadsBack(s, rest);
    case Array(items) => ArrayReadsBack(items, rest);
    case Object(entries) => ObjectReadsBack(entries, rest);
    case _ => LiteralReadsBack(v, rest);
  }

  lemma Enclosed(open: Unit, body: Text, close: Unit, rest: Text)
    ensures
      var t := ([open] + (body + [close])) + rest;
      t[0] == open && t[1..] == body + ([close] + rest)
  {
    Regroup([open], body, [close], rest);
  }

  lemma ArrayJoin(body: Text, items: seq<Json>, rest: Text)
    requires StartsValue(body) && ParseItems(body + ([CLOSE_ARRAY] + rest)) == Some(Parsed(items, rest))
    ensures ParseValue(([OPEN_ARRAY] + (body + [CLOSE_ARRAY])) + rest) == Some(Parsed(Array(items), rest))
  {
    Enclosed(OPEN_ARRAY, body, CLOSE_ARRAY, rest);
    var inner := body + ([CLOSE_ARRAY] + rest);
    assert inner[0] == body[0] && SkipBlanks(inner) == inner;
  }

  lemma {:induction false} ArrayReadsBack(items: seq<Json>, rest: Text)
    requires forall i :: 0 <= i < |items| ==> Printable(items[i])
    ensures ParseValue(Print(Array(items)) + rest) == Some(Parsed(Array(items), rest))
    decreases items, 2
  {
    if items == [] {
      Enclosed(OPEN_ARRAY, [], CLOSE_ARRAY, rest);
      assert [] + ([CLOSE_ARRAY] + rest) == [CLOSE_ARRAY] + rest && ([CLOSE_ARRAY] + rest)[1..] == rest;
    } else {
      ItemsReadBack(items, rest);
      PrintStarts(items[0]);
      ArrayJoin(PrintItems(items), items, rest);
    }
  }

  lemma LastItem(t: Text, v: Json, rest: Text)
    requires ParseValue(t) == Some(Parsed(v, [CLOSE_ARRAY] + rest))
    ensures ParseItems(t) == Some(Parsed([v], rest))
  {
    assert ([CLOSE_ARRAY] + rest)[1..] == rest;
  }

  lemma NextItem(t: Text, v: Json, u: Text, items: seq<Json>, rest: Text)
    requires ParseValue(t) == Some(Parsed(v, [COMMA] + u)) && ParseItems(u) == Some(Parsed(items, rest))
    ensures ParseItems(t) == Some(Parsed([v] + items, rest))
  {
    assert ([COMMA] + u)[1..] == u;
  }

  lemma ItemsJoin(first: Text, later: Text, end: Text, v: Json, items: seq<Json>, rest: Text)
    requires ParseValue(first + ([COMMA] + (later + end))) == Some(Parsed(v, [COMMA] + (later + end)))
    requires ParseItems(later + end) == Some(Parsed(items, rest))
    ensures ParseItems((first + ([COMMA] + later)) + end) == Some(Parsed([v] + items, rest))
  {
    Regroup(first, [COMMA], later, end);
    NextItem(first + ([COMMA] + (later + end)), v, later + end, items, rest);
  }

  lemma {:induction false} ItemsReadBack(items: seq<Json>, rest: Text)
    requires items != [] && forall i :: 0 <= i < |items| ==> Printable(items[i])
    ensures ParseItems(PrintItems(items) + ([CLOSE_ARRAY] + rest)) == Some(Parsed(items, rest))
    decreases items, 1
  {
    var end := [CLOSE_ARRAY] + rest;
    HeadAndTail(items);
    if |items| == 1 {
      PrintReadsBack(items[0], end);
      LastItem(PrintItems(items) + end, items[0], rest);
      assert items == [items[0]];
    } else {
      PrintReadsBack(items[0], [COMMA] + (PrintItems(items[1..]) + end));
      ItemsReadBack(items[1..], rest);
      ItemsJoin(Print(items[0]), PrintItems(items[1..]), end, items[0], items[1..], rest);
    }
  }

  lemma ObjectJoin(body: Text, entries: seq<Entry>, rest: Text)
    requires body != [] && body[0] == QUOTE
    requires ParseEntries(body + ([CLOSE_OBJECT] + rest)) == Some(Parsed(entries, rest))
    ensures ParseValue(([OPEN_OBJECT] + (body + [CLOSE_OBJECT])) + rest) == Some(Parsed(Object(entries), rest))
  {
    Enclosed(OPEN_OBJECT, body, CLOSE_OBJECT, rest);
    var inner := body + ([CLOSE_OBJECT] + rest);
    assert inner[0] == body[0] && SkipBlanks(inner) == inner;
  }

  lemma {:induction false} ObjectReadsBack(entries: seq<Entry>, rest: Text)
    requires forall i :: 0 <= i < |entries| ==> Printable(entries[i].value)
    ensures ParseValue(Print(Object(entries)) + rest) == Some(Parsed(Object(entries), rest))
    decreases entries, 3
  {
    if entries == [] {
      Enclosed(OPEN_OBJECT, [], CLOSE_OBJECT, rest);
      assert [] + ([CLOSE_OBJECT] + rest) == [CLOSE_OBJECT] + rest && ([CLOSE_OBJECT] + rest)[1..] == rest;
    } else {
      EntriesReadBack(entries, rest);
      ObjectJoin(PrintEntries(entries), entries, rest);
    }
  }

  lemma EntryStep(t: Text, u: Text, key: Text, w: Text, v: Json, rest: Text)
    requires t == [QUOTE] + u && ParseChars(u) == Some(Parsed(key, [COLON] + w))
    requires ParseValue(w) == Some(Parsed(v, rest))
    ensures ParseEntry(t) == Some(Parsed(Entry(key, v), rest))
  {
    assert t[1..] == u && ([COLON] + w)[1..] == w;
    assert SkipBlanks(t) == t && SkipBlanks([COLON] + w) == [COLON] + w;
  }

  lemma EntryJoin(key: Text, value: Text, e: Entry, rest: Text)
    requires ParseValue(value + rest) == Some(Parsed(e.value, rest)) && key == e.key
    ensures ParseEntry((Quoted(key) + ([COLON] + value)) + rest) == Some(Parsed(e, rest))
  {
    var after := [COLON] + (value + rest);
    CharsRoundTrip(key, after);
    Regroup(Quoted(key), [COLON], value, rest);
    Regroup([QUOTE], Escaped(key), [QUOTE], after);
    EntryStep(Quoted(key) + after, Escaped(key) + ([QUOTE] + after), key, value + rest, e.value, rest);
  }

  lemma {:induction false} EntryReadsBack(e: Entry, rest: Text)
    requires Printable(e.value) && Ends(rest)
    ensures ParseEntry(PrintEntry(e) + rest) == Some(Parsed(e, rest))
    decreases e, 2
  {
    PrintReadsBack(e.value, rest);
    EntryJoin(e.key, Print(e.value), e, rest);
  }

  lemma LastEntry(t: Text, e: Entry, rest: Text)
    requires ParseEntry(t) == Some(Parsed(e, [CLOSE_OBJECT] + rest))
    ensures ParseEntries(t) == Some(Parsed([e], rest))
  {
    assert ([CLOSE_OBJECT] + rest)[1..] == rest;
  }

  lemma NextEntry(t: Text, e: Entry, u: Text, entries: seq<Entry>, rest: Text)
    requires ParseEntry(t) == Some(Parsed(e, [COMMA] + u)) && ParseEntries(u) == Some(Parsed(entries, rest))
    ensures ParseEntries(t) == Some(Parsed([e] + entries, rest))
  {
    assert ([COMMA] + u)[1..] == u;
  }

  lemma EntriesJoin(first: Text, later: Text, end: Text, e: Entry, entries: seq<Entry>, rest: Text)
    requires ParseEntry(first + ([COMMA] + (later + end))) == Some(Parsed(e, [COMMA] + (later + end)))
    requires ParseEntries(later + end) == Some(Parsed(entries, rest))
    ensures ParseEntries((first + ([COMMA] + later)) + end) == Some(Parsed([e] + entries, rest))
  {
    Regroup(first, [COMMA], later, end);
    NextEntry(first + ([COMMA] + (later + end)), e, later + end, entries, rest);
  }

  lemma {:induction false} EntriesReadBack(entries: seq<Entry>, rest: Text)
    requires entries != [] && forall i :: 0 <= i < |entries| ==> Printable(entries[i].value)
    ensures ParseEntries(PrintEntries(entries) + ([CLOSE_OBJECT] + rest)) == Some(Parsed(entries, rest))
    decreases entries, 1
  {
    var end := [CLOSE_OBJECT] + rest;
    HeadAndTail(entries);
    if |entries| == 1 {
      EntryReadsBack(entries[0], end);
      LastEntry(PrintEntries(entries) + end, entries[0], rest);
      assert entries == [entries[0]];
    } else {
      EntryReadsBack(entries[0], [COMMA] + (PrintEntries(entries[1..]) + end));
      EntriesReadBack(entries[1..], rest);
      EntriesJoin(PrintEntry(entries[0]), PrintEntries(entries[1..]), end, entries[0], entries[1..], rest);
    }
  }

  /** `JSON.parse(JSON.stringify(v))` is v; so no two trees print alike. */
  lemma {:induction false} JsonRoundTrip(v: Json)
    requires Printable(v)
    ensures Parse(Print(v)) == Some(v)
  {
    PrintReadsBack(v, []);
    assert Print(v) + [] == Print(v);
  }
}
