/** Texts as sequences of UTF-16 code units, and the one order that strings are compared by. */
module CodeUnits {
  import opened Options

  /** A UTF-16 code unit; no bound on it is ever needed. */
  type Unit = int

  type Text = seq<Unit>

  /** The code units of a string. */
  function Units(s: string): (t: Text)
    ensures |t| == |s|
  {
    seq(|s|, i requires 0 <= i < |s| => s[i] as int)
  }

  lemma UnitsInjective(s: string, t: string)
    ensures Units(s) == Units(t) <==> s == t
  {
    if Units(s) == Units(t) {
      forall i | 0 <= i < |s|
        ensures s[i] == t[i]
      {
        assert Units(s)[i] == Units(t)[i];
      }
    }
  }

  lemma UnitsOfJoin(s: string, t: string)
    ensures Units(s + t) == Units(s) + Units(t)
  {
  }

  /** The order of `<` and of `sort()` on strings: by code units, a proper prefix first. */
  predicate UnitsLess(a: Text, b: Text) {
    b != [] && (a == [] || a[0] < b[0] || (a[0] == b[0] && UnitsLess(a[1..], b[1..])))
  }

  lemma {:induction false} UnitsOrder(a: Text, b: Text)
    ensures UnitsLess(a, b) || UnitsLess(b, a) || a == b
    ensures !(UnitsLess(a, b) && UnitsLess(b, a))
    ensures !UnitsLess(a, a)
  {
    if a != [] && b != [] {
      UnitsOrder(a[1..], b[1..]);
      HeadAndTail(a);
      HeadAndTail(b);
    } else if a != [] {
      UnitsOrder(a[1..], b);
    }
  }

  lemma {:induction false} UnitsTransitive(a: Text, b: Text, c: Text)
    requires UnitsLess(a, b) && UnitsLess(b, c)
    ensures UnitsLess(a, c)
  {
    if a != [] && a[0] == b[0] == c[0] {
      UnitsTransitive(a[1..], b[1..], c[1..]);
    }
  }

  /** Texts of equal length decide first; what follows them decides ties. */
  lemma {:induction false} UnitsAfter(x: Text, a: Text, y: Text, b: Text)
    requires |x| == |y|
    ensures UnitsLess(x + a, y + b) <==> UnitsLess(x, y) || (x == y && UnitsLess(a, b))
  {
    if x == [] {
      assert x + a == a && y + b == b;
    } else {
      UnitsAfter(x[1..], a, y[1..], b);
      assert (x + a)[1..] == x[1..] + a && (y + b)[1..] == y[1..] + b;
      HeadAndTail(x);
      HeadAndTail(y);
    }
  }
}
