/** The base64url layer of cursors: RFC 4648, sections 3.2, 4 and 5, over `btoa` and `atob`. */
module Base64Url {
  import opened Options
  import opened CodeUnits
  import opened Json

  const PAD: Unit := '=' as int

  predicate IsBytes(b: Text) {
    forall i :: 0 <= i < |b| ==> 0 <= b[i] < 256
  }

  predicate IsSextets(xs: seq<int>) {
    forall i :: 0 <= i < |xs| ==> 0 <= xs[i] < 64
  }

  /** The standard alphabet. */
  function StandardUnit(x: int): Unit
    requires 0 <= x < 64
  {
    if x < 26 then 'A' as int + x
    else if x < 52 then 'a' as int + x - 26
    else if x < 62 then '0' as int + x - 52
    else if x == 62 then '+' as int
    else '/' as int
  }

  function SextetOf(u: Unit): (x: Option<int>)
    ensures x.Some? ==> 0 <= x.value < 64
  {
    if 'A' as int <= u <= 'Z' as int then Some(u - 'A' as int)
    else if 'a' as int <= u <= 'z' as int then Some(u - 'a' as int + 26)
    else if '0' as int <= u <= '9' as int then Some(u - '0' as int + 52)
    else if u == '+' as int then Some(62)
    else if u == '/' as int then Some(63)
    else None
  }

  /** Three bytes become four six-bit groups; one or two bytes become two or three. */
  function Sextets(b: Text): (xs: seq<int>)
    requires IsBytes(b)
    ensures IsSextets(xs) && |xs| % 4 != 1 && |xs| == (4 * |b| + 2) / 3
  {
    if b == [] then []
    else if |b| == 1 then [b[0] / 4, b[0] % 4 * 16]
    else if |b| == 2 then [b[0] / 4, b[0] % 4 * 16 + b[1] / 16, b[1] % 16 * 4]
    else [b[0] / 4, b[0] % 4 * 16 + b[1] / 16, b[1] % 16 * 4 + b[2] / 64, b[2] % 64] + Sextets(b[3..])
  }

  function Alphabet(xs: seq<int>): (t: Text)
    requires IsSextets(xs)
  {
    seq(|xs|, i requires 0 <= i < |xs| => StandardUnit(xs[i]))
  }

  function Padding(n: nat): Text {
    seq((4 - n % 4) % 4, i => PAD)
  }

  /** `btoa`: only byte strings, padded to a multiple of four. */
  function Btoa(value: Text): Option<Text> {
    if !IsBytes(value) then None else Some(Alphabet(Sextets(value)) + Padding(|Sextets(value)|))
  }

  /** The bytes of six-bit groups; the last group's spare bits are dropped. */
  function Bytes(xs: seq<int>): Text
    requires IsSextets(xs) && |xs| % 4 != 1
  {
    if xs == [] then []
    else if |xs| == 2 then [xs[0] * 4 + xs[1] / 16]
    else if |xs| == 3 then [xs[0] * 4 + xs[1] / 16, xs[1] % 16 * 16 + xs[2] / 4]
    else [xs[0] * 4 + xs[1] / 16, xs[1] % 16 * 16 + xs[2] / 4, xs[2] % 4 * 64 + xs[3]] + Bytes(xs[4..])
  }

  function WithoutPadding(t: Text): Text {
    if |t| % 4 != 0 || |t| == 0 || t[|t| - 1] != PAD then t
    else if t[|t| - 2] != PAD then t[..|t| - 1]
    else t[..|t| - 2]
  }

  predicate InAlphabet(t: Text) {
    forall i :: 0 <= i < |t| ==> SextetOf(t[i]).Some?
  }

  /** `atob` on a text without blanks: up to two pads are cut, and a lone last unit is an error. */
  function Atob(t: Text): Option<Text> {
    var data := WithoutPadding(t);
    if |data| % 4 == 1 || !InAlphabet(data) then None
    else Some(Bytes(seq(|data|, i requires 0 <= i < |data| => SextetOf(data[i]).value)))
  }

  function ReplaceAll(t: Text, from: Unit, to: Unit): (r: Text)
    ensures |r| == |t| && forall i :: 0 <= i < |t| ==> r[i] == if t[i] == from then to else t[i]
  {
    seq(|t|, i requires 0 <= i < |t| => if t[i] == from then to else t[i])
  }

  function RemoveAll(t: Text, u: Unit): Text {
    if t == [] then [] else (if t[0] == u then [] else [t[0]]) + RemoveAll(t[1..], u)
  }

  function ToBase64Url(value: Text): Option<Text> {
    match Btoa(value)
    case None => None
    case Some(t) => Some(RemoveAll(ReplaceAll(ReplaceAll(t, '+' as int, '-' as int), '/' as int, '_' as int), PAD))
  }

  predicate IsUrlUnit(u: Unit) {
    || 'A' as int <= u <= 'Z' as int || 'a' as int <= u <= 'z' as int || '0' as int <= u <= '9' as int
    || u == '_' as int || u == '-' as int
  }

  predicate IsUrlText(t: Text) {
    t != [] && forall i :: 0 <= i < |t| ==> IsUrlUnit(t[i])
  }

  function FromBase64Url(t: Text): Option<Text> {
    if !IsUrlText(t) then None
    else Atob(ReplaceAll(ReplaceAll(t, '-' as int, '+' as int), '_' as int, '/' as int) + Padding(|t|))
  }

  // ---- Round trip ----

  /** The url-safe alphabet. */
  function UrlAlphabet(xs: seq<int>): (t: Text)
    requires IsSextets(xs)
  {
    ReplaceAll(ReplaceAll(Alphabet(xs), '+' as int, '-' as int), '/' as int, '_' as int)
  }

  lemma {:induction false} NothingRemoved(t: Text, u: Unit)
    requires u !in t
    ensures RemoveAll(t, u) == t
  {
    if t != [] {
      NothingRemoved(t[1..], u);
    }
  }

  lemma {:induction false} RemoveJoin(a: Text, b: Text, u: Unit)
    ensures RemoveAll(a + b, u) == RemoveAll(a, u) + RemoveAll(b, u)
  {
    if a == [] {
      assert a + b == b;
    } else {
      RemoveJoin(a[1..], b, u);
      assert (a + b)[1..] == a[1..] + b && (a + b)[0] == a[0];
      Regroup(if a[0] == u then [] else [a[0]], RemoveAll(a[1..], u), RemoveAll(b, u), []);
    }
  }

  lemma {:induction false} AllRemoved(t: Text, u: Unit)
    requires forall i :: 0 <= i < |t| ==> t[i] == u
    ensures RemoveAll(t, u) == []
  {
    if t != [] {
      AllRemoved(t[1..], u);
    }
  }

  lemma ReplaceJoin(a: Text, b: Text, from: Unit, to: Unit)
    ensures ReplaceAll(a + b, from, to) == ReplaceAll(a, from, to) + ReplaceAll(b, from, to)
  {
  }

  lemma PaddingUnchanged(xs: seq<int>, n: nat)
    requires IsSextets(xs)
    ensures
      ReplaceAll(ReplaceAll(Alphabet(xs) + Padding(n), '+' as int, '-' as int), '/' as int, '_' as int)
      == UrlAlphabet(xs) + Padding(n)
  {
    var pads := Padding(n);
    ReplaceJoin(Alphabet(xs), pads, '+' as int, '-' as int);
    assert ReplaceAll(pads, '+' as int, '-' as int) == pads;
    ReplaceJoin(ReplaceAll(Alphabet(xs), '+' as int, '-' as int), pads, '/' as int, '_' as int);
    assert ReplaceAll(pads, '/' as int, '_' as int) == pads;
  }

  /** Encoding drops exactly the padding and swaps exactly the two unsafe characters. */
  lemma EncodesSextets(value: Text)
    requires IsBytes(value)
    ensures ToBase64Url(value) == Some(UrlAlphabet(Sextets(value)))
  {
    var xs := Sextets(value);
    PaddingUnchanged(xs, |xs|);
    RemoveJoin(UrlAlphabet(xs), Padding(|xs|), PAD);
    AllRemoved(Padding(|xs|), PAD);
    NothingRemoved(UrlAlphabet(xs), PAD);
    assert UrlAlphabet(xs) + [] == UrlAlphabet(xs);
  }

  lemma UrlUnits(xs: seq<int>)
    requires IsSextets(xs)
    ensures forall i :: 0 <= i < |xs| ==> IsUrlUnit(UrlAlphabet(xs)[i])
    ensures ReplaceAll(ReplaceAll(UrlAlphabet(xs), '-' as int, '+' as int), '_' as int, '/' as int) == Alphabet(xs)
  {
  }

  lemma AlphabetReads(x: int)
    requires 0 <= x < 64
    ensures SextetOf(StandardUnit(x)) == Some(x) && StandardUnit(x) != PAD
  {
  }

  lemma PadsStripped(xs: seq<int>)
    requires IsSextets(xs) && |xs| % 4 != 1
    ensures WithoutPadding(Alphabet(xs) + Padding(|xs|)) == Alphabet(xs)
  {
    if xs != [] {
      AlphabetReads(xs[|xs| - 1]);
    }
    PadsOff(Alphabet(xs), Padding(|xs|));
  }

  /** At most two pads that fill a text up to a multiple of four are cut off again. */
  lemma PadsOff(t: Text, pads: Text)
    requires (t == [] || t[|t| - 1] != PAD) && |pads| <= 2 && |t + pads| % 4 == 0
    requires forall i :: 0 <= i < |pads| ==> pads[i] == PAD
    ensures WithoutPadding(t + pads) == t
  {
    if pads == [] {
      assert t + pads == t;
    }
  }

  lemma AtobReads(xs: seq<int>)
    requires IsSextets(xs) && |xs| % 4 != 1
    ensures Atob(Alphabet(xs) + Padding(|xs|)) == Some(Bytes(xs))
  {
    PadsStripped(xs);
    var data := Alphabet(xs);
    forall i | 0 <= i < |xs|
      ensures SextetOf(data[i]) == Some(xs[i])
    {
      AlphabetReads(xs[i]);
    }
    assert seq(|data|, i requires 0 <= i < |data| => SextetOf(data[i]).value) == xs;
  }

  lemma GroupReadsBack(a: int, b: int, c: int)
    requires 0 <= a < 256 && 0 <= b < 256 && 0 <= c < 256
    ensures a / 4 * 4 + (a % 4 * 16 + b / 16) / 16 == a
    ensures (a % 4 * 16 + b / 16) % 16 * 16 + (b % 16 * 4 + c / 64) / 4 == b
    ensures (b % 16 * 4 + c / 64) % 4 * 64 + c % 64 == c
  {
  }

  lemma {:induction false} BytesReadBack(b: Text)
    requires IsBytes(b)
    ensures Bytes(Sextets(b)) == b
    decreases |b|
  {
    if |b| >= 3 {
      BytesReadBack(b[3..]);
      assert Sextets(b)[4..] == Sextets(b[3..]);
      GroupReadsBack(b[0], b[1], b[2]);
      assert b == [b[0], b[1], b[2]] + b[3..];
    } else if |b| == 2 {
      GroupReadsBack(b[0], b[1], 0);
      assert b == [b[0], b[1]];
    } else if |b| == 1 {
      GroupReadsBack(b[0], 0, 0);
      assert b == [b[0]];
    }
  }

  /** Restoring the padding by length gives back every non-empty byte string. */
  lemma Base64UrlRoundTrip(b: Text)
    requires IsBytes(b) && b != []
    ensures ToBase64Url(b).Some? && FromBase64Url(ToBase64Url(b).value) == Some(b)
  {
    var xs := Sextets(b);
    EncodesSextets(b);
    UrlUnits(xs);
    AtobReads(xs);
    BytesReadBack(b);
  }

  /** RFC 4648, section 5: the character of each six-bit group. */
  lemma UrlAlphabetIs(x: int)
    requires 0 <= x < 64
    ensures UrlAlphabet([x]) == [
              if x <= 25 then 65 + x else if x <= 51 then 97 + (x - 26) else if x <= 61 then 48 + (x - 52)
              else if x == 62 then '-' as int else '_' as int]
  {
  }

  /** RFC 4648, section 3.5: the spare bits of the last group are zero, four or two of them. */
  lemma {:induction false} SpareBitsAreZero(b: Text, triples: nat, left: nat)
    requires IsBytes(b) && |b| == 3 * triples + left && 1 <= left <= 2
    ensures Sextets(b)[|Sextets(b)| - 1] % (if left == 1 then 16 else 4) == 0
    decreases triples
  {
    if triples == 0 {
      ShortTail(b);
    } else {
      SpareBitsAreZero(b[3..], triples - 1, left);
      LastGroup(b);
    }
  }

  lemma ShortTail(b: Text)
    requires IsBytes(b) && 1 <= |b| <= 2
    ensures Sextets(b)[|b|] % (if |b| == 1 then 16 else 4) == 0 && |Sextets(b)| == |b| + 1
  {
    ZeroBits(if |b| == 1 then b[0] % 4 else b[1] % 16);
  }

  lemma ZeroBits(x: int)
    ensures x * 16 % 16 == 0 && x * 4 % 4 == 0
  {
  }

  lemma LastGroup(b: Text)
    requires IsBytes(b) && |b| > 3
    ensures Sextets(b)[|Sextets(b)| - 1] == Sextets(b[3..])[|Sextets(b[3..])| - 1]
  {
  }

  /** Decoding yields bytes, and fails exactly on an empty text, on other characters or a lone last one. */
  lemma DecodesExactly(t: Text)
    ensures FromBase64Url(t).Some? <==>
      && t != [] && |t| % 4 != 1
      && forall i :: 0 <= i < |t| ==>
           65 <= t[i] <= 90 || 97 <= t[i] <= 122 || 48 <= t[i] <= 57 || t[i] == '-' as int || t[i] == '_' as int
    ensures FromBase64Url(t).Some? ==> IsBytes(FromBase64Url(t).value)
  {
    if IsUrlText(t) {
      var s := ReplaceAll(ReplaceAll(t, '-' as int, '+' as int), '_' as int, '/' as int);
      assert InAlphabet(s);
      var xs := seq(|s|, i requires 0 <= i < |s| => SextetOf(s[i]).value);
      AlphabetWrites(s, xs);
      if |t| % 4 == 1 {
        LoneUnit(s);
      } else {
        AtobReads(xs);
        BytesAreBytes(xs);
      }
    }
  }

  lemma AlphabetWrites(s: Text, xs: seq<int>)
    requires InAlphabet(s) && xs == seq(|s|, i requires 0 <= i < |s| => SextetOf(s[i]).value)
    ensures IsSextets(xs) && Alphabet(xs) == s
  {
  }

  lemma LoneUnit(s: Text)
    requires InAlphabet(s) && |s| % 4 == 1
    ensures Atob(s + Padding(|s|)) == None
  {
    var t := s + Padding(|s|);
    assert |t| == |s| + 3 && WithoutPadding(t) == t[..|t| - 2];
    assert t[..|t| - 2][|s|] == PAD;
  }

  lemma {:induction false} BytesAreBytes(xs: seq<int>)
    requires IsSextets(xs) && |xs| % 4 != 1
    ensures IsBytes(Bytes(xs))
  {
    if |xs| >= 4 {
      BytesAreBytes(xs[4..]);
    }
  }
}
