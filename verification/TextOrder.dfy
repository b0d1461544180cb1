/** String comparison, and fixed-width numerals whose text order is their numeric order. */
module TextOrder {
  import opened CodeUnits
  import opened Options

  /** `<` on strings. */
  predicate TextLess(a: string, b: string) {
    UnitsLess(Units(a), Units(b))
  }

  /** Negative, zero or positive as the first text is smaller, equal or larger. */
  function CompareText(a: string, b: string): int {
    if TextLess(a, b) then -1 else if TextLess(b, a) then 1 else 0
  }

  lemma TextOrderIsTotal(a: string, b: string)
    ensures TextLess(a, b) || TextLess(b, a) || a == b
    ensures !(TextLess(a, b) && TextLess(b, a))
    ensures a == b ==> !TextLess(a, b)
  {
    UnitsOrder(Units(a), Units(b));
    UnitsInjective(a, b);
  }

  /** Texts of equal length decide first; what follows them decides ties. */
  lemma TextAfter(x: string, a: string, y: string, b: string)
    requires |x| == |y|
    ensures TextLess(x + a, y + b) <==> TextLess(x, y) || (x == y && TextLess(a, b))
  {
    UnitsOfJoin(x, a);
    UnitsOfJoin(y, b);
    UnitsAfter(Units(x), Units(a), Units(y), Units(b));
    UnitsInjective(x, y);
  }

  /** Different first characters decide. */
  lemma FirstDecides(a: string, b: string)
    requires a != "" && b != "" && a[0] != b[0]
    ensures TextLess(a, b) <==> a[0] < b[0]
  {
  }

  /** Two texts of one length that are equal as their numbers are, and, if ordered, compare as they do. */
  ghost predicate Agree(ordered: bool, x: string, m: int, y: string, n: int) {
    && |x| == |y|
    && (ordered ==> (TextLess(x, y) <==> m < n))
    && (x == y <==> m == n)
  }

  // ---- Numerals ----

  datatype Radix = Decimal | Hex {
    function Base(): nat {
      if Decimal? then 10 else 16
    }

    function High(n: nat): (h: nat)
      ensures n > 0 ==> h < n
    {
      if Decimal? then n / 10 else n / 16
    }

    function Low(n: nat): (l: nat)
      ensures l < 16
    {
      if Decimal? then n % 10 else n % 16
    }
  }

  function Pow(radix: Radix, w: nat): (p: nat)
    ensures p > 0
  {
    if w == 0 then 1 else if radix.Decimal? then 10 * Pow(radix, w - 1) else 16 * Pow(radix, w - 1)
  }

  /** Digits, with lower-case letters from ten on. */
  function DigitChar(d: nat): char
    requires d < 16
  {
    "0123456789abcdef"[d]
  }

  lemma DigitsApart(c: nat, d: nat)
    requires c < 16 && d < 16
    ensures DigitChar(c) < DigitChar(d) <==> c < d
    ensures DigitChar(c) == DigitChar(d) <==> c == d
  {
    DigitCode(c);
    DigitCode(d);
  }

  lemma DigitCode(d: nat)
    requires d < 16
    ensures DigitChar(d) as int == if d < 10 then 48 + d else 87 + d
  {
  }

  /** The lowest w digits of n, with leading zeros. */
  function Digits(radix: Radix, n: nat, w: nat): (s: string)
    ensures |s| == w
  {
    if w == 0 then "" else Digits(radix, radix.High(n), w - 1) + [DigitChar(radix.Low(n))]
  }

  lemma OneDigit(c: nat, d: nat)
    requires c < 16 && d < 16
    ensures Agree(true, [DigitChar(c)], c, [DigitChar(d)], d)
  {
    DigitsApart(c, d);
    if c != d {
      FirstDecides([DigitChar(c)], [DigitChar(d)]);
    } else {
      TextOrderIsTotal([DigitChar(c)], [DigitChar(d)]);
    }
  }

  lemma Multiple(k: int, d: int)
    requires k > 0 && d >= 1
    ensures k * d >= k
  {
  }

  /** Two-part numbers compare by the high part, then by the low one. */
  lemma HighAndLow(k: int, p: int, r: int, q: int, t: int)
    requires 0 <= r < k && 0 <= t < k
    ensures k * p + r < k * q + t <==> p < q || (p == q && r < t)
    ensures k * p + r == k * q + t <==> p == q && r == t
  {
    if p < q {
      Multiple(k, q - p);
      assert k * (q - p) == k * q - k * p;
    } else if q < p {
      Multiple(k, p - q);
      assert k * (p - q) == k * p - k * q;
    }
  }

  /** A text for the high part followed by one for the low part orders like the whole. */
  lemma JoinAgrees(
    ordered: bool, x: string, y: string, sep: string, a: string, b: string, k: int, p: int, r: int, q: int, t: int)
    requires 0 <= r < k && 0 <= t < k && Agree(ordered, x, p, y, q) && Agree(ordered, a, r, b, t)
    ensures Agree(ordered, x + (sep + a), k * p + r, y + (sep + b), k * q + t)
  {
    HighAndLow(k, p, r, q, t);
    TextAfter(sep, a, sep, b);
    TextOrderIsTotal(sep, sep);
    TextAfter(x, sep + a, y, sep + b);
    JoinsEqual(x, sep + a, y, sep + b);
    JoinsEqual(sep, a, sep, b);
  }

  /** Fixed-width numerals order as numbers. */
  lemma {:induction false} DigitsAgree(radix: Radix, m: nat, n: nat, w: nat)
    requires m < Pow(radix, w) && n < Pow(radix, w)
    ensures Agree(true, Digits(radix, m, w), m, Digits(radix, n, w), n)
  {
    if w > 0 {
      DigitsAgree(radix, radix.High(m), radix.High(n), w - 1);
      var a, b := [DigitChar(radix.Low(m))], [DigitChar(radix.Low(n))];
      OneDigit(radix.Low(m), radix.Low(n));
      JoinAgrees(
        true, Digits(radix, radix.High(m), w - 1), Digits(radix, radix.High(n), w - 1), "", a, b,
        radix.Base(), radix.High(m), radix.Low(m), radix.High(n), radix.Low(n));
      assert "" + a == a && "" + b == b;
      HighLow(radix, m);
      HighLow(radix, n);
    }
  }

  lemma HighLow(radix: Radix, n: nat)
    ensures radix.Base() * radix.High(n) + radix.Low(n) == n
  {
  }

  lemma {:induction false} DigitsChars(radix: Radix, n: nat, w: nat)
    ensures forall i :: 0 <= i < w ==> Digits(radix, n, w)[i] in "0123456789abcdef"
  {
    if w > 0 {
      DigitsChars(radix, radix.High(n), w - 1);
      assert DigitChar(radix.Low(n)) in "0123456789abcdef";
    }
  }

  // ---- Identities ----

  const UUIDS := 0x1_0000_0000_0000_0000_0000_0000_0000_0000

  lemma {:induction false} PowAdds(radix: Radix, a: nat, b: nat)
    ensures Pow(radix, a + b) == Pow(radix, a) * Pow(radix, b)
  {
    if a > 0 {
      PowAdds(radix, a - 1, b);
      Associates(radix.Base(), Pow(radix, a - 1), Pow(radix, b));
    }
  }

  lemma Associates(x: int, y: int, z: int)
    ensures x * (y * z) == x * y * z
  {
  }

  /** There are 2 to the power of 128 identities. */
  lemma UuidsFit()
    ensures Pow(Hex, 32) == UUIDS
  {
    assert Pow(Hex, 2) == 0x100 && Pow(Hex, 4) == 0x1_0000;
    PowAdds(Hex, 4, 4);
    PowAdds(Hex, 8, 8);
    PowAdds(Hex, 16, 16);
  }

  function Hyphen(s: string, i: nat): string
    requires i <= |s|
  {
    s[..i] + ("-" + s[i..])
  }

  /** The text of a uuid, a 128-bit number: 32 hexadecimal digits in five groups. */
  function UuidText(id: nat): string {
    Hyphen(Hyphen(Hyphen(Hyphen(Digits(Hex, id, 32), 20), 16), 12), 8)
  }

  lemma HyphenAgrees(s: string, m: int, t: string, n: int, i: nat)
    requires Agree(true, s, m, t, n) && i <= |s|
    ensures Agree(true, Hyphen(s, i), m, Hyphen(t, i), n)
  {
    TextAfter(s[..i], s[i..], t[..i], t[i..]);
    TextAfter(s[..i], "-" + s[i..], t[..i], "-" + t[i..]);
    TextAfter("-", s[i..], "-", t[i..]);
    TextOrderIsTotal("-", "-");
    assert s == s[..i] + s[i..] && t == t[..i] + t[i..];
    JoinsEqual(s[..i], "-" + s[i..], t[..i], "-" + t[i..]);
    JoinsEqual("-", s[i..], "-", t[i..]);
  }

  /** PostgreSQL orders uuid values by their bytes, which is how their texts order. */
  lemma UuidsAgree(m: nat, n: nat)
    requires m < UUIDS && n < UUIDS
    ensures Agree(true, UuidText(m), m, UuidText(n), n)
  {
    var s, t := Digits(Hex, m, 32), Digits(Hex, n, 32);
    UuidsFit();
    DigitsAgree(Hex, m, n, 32);
    HyphenAgrees(s, m, t, n, 20);
    HyphenAgrees(Hyphen(s, 20), m, Hyphen(t, 20), n, 16);
    HyphenAgrees(Hyphen(Hyphen(s, 20), 16), m, Hyphen(Hyphen(t, 20), 16), n, 12);
    HyphenAgrees(Hyphen(Hyphen(Hyphen(s, 20), 16), 12), m, Hyphen(Hyphen(Hyphen(t, 20), 16), 12), n, 8);
  }
}
