/** Search patterns and status counts shared by the Admin lists. */
module ListSearch {
  import opened JsText
  import opened Options

  // ---- LIKE patterns ----

  /** Puts the escape character before every `\`, `%` and `_`. */
  function Escape(v: string): string {
    if v == "" then ""
    else (if v[0] in {'\\', '%', '_'} then ['\\', v[0]] else [v[0]]) + Escape(v[1..])
  }

  function ContainsLikePattern(v: string): string {
    "%" + Escape(v) + "%"
  }

  /** A blank query searches nothing at all. */
  function ContainsLikeQueryPattern(query: Option<string>): Option<string> {
    if query.None? || Trim(query.value) == "" then None
    else Some(ContainsLikePattern(Trim(query.value)))
  }

  /**
   * PostgreSQL LIKE with escape `\`: `%` matches any run, `_` any one character, and the escape
   * makes the next character literal. Reaching an escape that ends the pattern is an error.
   */
  function Like(t: string, p: string): Option<bool>
    decreases |p|, |t|
  {
    if p == "" then Some(t == "")
    else if p[0] == '%' then
      var here := Like(t, p[1..]);
      if here != Some(false) || t == "" then here else Like(t[1..], p)
    else if t == "" then Some(false)
    else if p[0] == '\\' then
      if |p| == 1 then None
      else if t[0] == p[1] then Like(t[1..], p[2..])
      else Some(false)
    else if p[0] == '_' || t[0] == p[0] then Like(t[1..], p[1..])
    else Some(false)
  }

  function Fold(fold: char -> char, s: string): (t: string)
    ensures |t| == |s| && forall i :: 0 <= i < |s| ==> t[i] == fold(s[i])
  {
    seq(|s|, i requires 0 <= i < |s| => fold(s[i]))
  }

  /** ILIKE folds both the value and the pattern before matching. */
  function ILike(fold: char -> char, t: string, p: string): Option<bool> {
    Like(Fold(fold, t), Fold(fold, p))
  }

  predicate StartsWith(t: string, v: string) {
    |v| <= |t| && t[..|v|] == v
  }

  /** Plain substring search. */
  ghost predicate Contains(t: string, v: string) {
    exists k :: 0 <= k <= |t| && StartsWith(t[k..], v)
  }

  /** A case folding keeps the three pattern characters apart from all others. */
  ghost predicate KeepsPatternCharacters(fold: char -> char) {
    forall c :: (c in {'\\', '%', '_'} ==> fold(c) == c) && (fold(c) in {'\\', '%', '_'} ==> fold(c) == c)
  }

  lemma EverythingMatchesPercent(t: string)
    ensures Like(t, "%") == Some(true)
  {
    if t != "" {
      EverythingMatchesPercent(t[1..]);
    }
    assert "%"[1..] == "";
  }

  /** An escaped text followed by `%` matches exactly the texts that start with it. */
  lemma {:induction false} EscapedPrefix(t: string, v: string)
    ensures Like(t, Escape(v) + "%") == Some(StartsWith(t, v))
    decreases |v|
  {
    var p := Escape(v) + "%";
    if v == "" {
      assert p == "%";
      EverythingMatchesPercent(t);
    } else {
      var rest := Escape(v[1..]) + "%";
      if v[0] in {'\\', '%', '_'} {
        assert p == ['\\', v[0]] + rest;
        assert p[2..] == rest;
      } else {
        assert p == [v[0]] + rest;
        assert p[1..] == rest;
      }
      if t != "" {
        EscapedPrefix(t[1..], v[1..]);
        StartsWithStep(t, v);
      }
    }
  }

  lemma StartsWithStep(t: string, v: string)
    requires t != "" && v != ""
    ensures StartsWith(t, v) <==> t[0] == v[0] && StartsWith(t[1..], v[1..])
  {
    assert v == [v[0]] + v[1..];
    if |v| <= |t| {
      assert t[..|v|] == [t[0]] + t[1..][..|v| - 1];
    }
  }

  lemma ContainsStep(t: string, v: string)
    requires t != ""
    ensures Contains(t, v) <==> StartsWith(t, v) || Contains(t[1..], v)
  {
    assert t[0..] == t;
    if Contains(t[1..], v) {
      var k :| 0 <= k <= |t[1..]| && StartsWith(t[1..][k..], v);
      assert t[k + 1..] == t[1..][k..];
    }
    if Contains(t, v) && !StartsWith(t, v) {
      var k :| 0 <= k <= |t| && StartsWith(t[k..], v);
      assert t[k..] == t[1..][k - 1..];
    }
  }

  lemma {:induction false} PatternMeansContains(t: string, v: string)
    ensures Like(t, ContainsLikePattern(v)) == Some(Contains(t, v))
    decreases |t|
  {
    var p := ContainsLikePattern(v);
    assert p[1..] == Escape(v) + "%";
    EscapedPrefix(t, v);
    if t == "" {
      assert t[0..] == t;
    } else {
      ContainsStep(t, v);
      if !StartsWith(t, v) {
        PatternMeansContains(t[1..], v);
      }
    }
  }

  lemma {:induction false} FoldOfEscape(fold: char -> char, v: string)
    requires KeepsPatternCharacters(fold)
    ensures Fold(fold, Escape(v)) == Escape(Fold(fold, v))
  {
    if v != "" {
      FoldOfEscape(fold, v[1..]);
      var f := Fold(fold, v);
      assert f[1..] == Fold(fold, v[1..]);
      var head := if v[0] in {'\\', '%', '_'} then ['\\', v[0]] else [v[0]];
      assert Fold(fold, head + Escape(v[1..])) == Fold(fold, head) + Fold(fold, Escape(v[1..]));
      assert f[0] in {'\\', '%', '_'} <==> v[0] in {'\\', '%', '_'};
    }
  }

  /**
   * Whatever the search text holds, the pattern finds it as a plain substring after case
   * folding, and is never rejected by the matcher.
   */
  lemma SearchFindsSubstrings(fold: char -> char, t: string, v: string)
    requires KeepsPatternCharacters(fold)
    ensures ILike(fold, t, ContainsLikePattern(v)) == Some(Contains(Fold(fold, t), Fold(fold, v)))
  {
    FoldOfEscape(fold, v);
    assert Fold(fold, ContainsLikePattern(v)) == ContainsLikePattern(Fold(fold, v));
    PatternMeansContains(Fold(fold, t), Fold(fold, v));
  }

  /** No pattern is made exactly for a missing query or one of nothing but space. */
  lemma BlankQueryHasNoPattern(query: Option<string>)
    ensures ContainsLikeQueryPattern(query).None?
            <==> query.None? || forall i :: 0 <= i < |query.value| ==> IsSpace(query.value[i])
  {
    if query.Some? {
      TrimBlank(query.value);
    }
  }

  /** A search for some text, once its outer space is gone, finds exactly the values that contain it. */
  lemma QueryFindsSubstrings(fold: char -> char, t: string, query: string)
    requires KeepsPatternCharacters(fold) && exists i :: 0 <= i < |query| && !IsSpace(query[i])
    ensures
      var pattern := ContainsLikeQueryPattern(Some(query));
      pattern.Some? && ILike(fold, t, pattern.value) == Some(Contains(Fold(fold, t), Fold(fold, Trim(query))))
  {
    TrimBlank(query);
    SearchFindsSubstrings(fold, t, Trim(query));
  }

  // ---- Status counts ----

  datatype StatusCount<S> = StatusCount(status: S, count: nat)

  /** Zero for every known status, then each row's count in turn. */
  function CountsAfter<S>(statuses: seq<S>, rows: seq<StatusCount<S>>): map<S, nat> {
    if rows == [] then map s | s in statuses :: 0
    else CountsAfter(statuses, rows[..|rows| - 1])[rows[|rows| - 1].status := rows[|rows| - 1].count]
  }

  method BuildStatusCounts<S(==)>(statuses: seq<S>, rows: seq<StatusCount<S>>) returns (counts: map<S, nat>)
    ensures counts == CountsAfter(statuses, rows)
  {
    counts := map s | s in statuses :: 0;
    assert rows[..0] == [];
    for i := 0 to |rows|
      invariant counts == CountsAfter(statuses, rows[..i])
    {
      assert rows[..i + 1][..i] == rows[..i];
      counts := counts[rows[i].status := rows[i].count];
    }
    assert rows[..|rows|] == rows;
  }

  /** What `group by status` returns for a table whose statuses are counted by n. */
  ghost predicate IsGrouping<S(!new)>(rows: seq<StatusCount<S>>, n: S -> nat) {
    && (forall i, j :: 0 <= i < j < |rows| ==> rows[i].status != rows[j].status)
    && (forall i :: 0 <= i < |rows| ==> rows[i].count == n(rows[i].status) > 0)
    && (forall s :: n(s) > 0 ==> exists i :: 0 <= i < |rows| && rows[i].status == s)
  }

  lemma {:induction false} CountsOfDistinctRows<S>(statuses: seq<S>, rows: seq<StatusCount<S>>)
    requires forall i, j :: 0 <= i < j < |rows| ==> rows[i].status != rows[j].status
    ensures CountsAfter(statuses, rows).Keys == (set s | s in statuses) + (set i | 0 <= i < |rows| :: rows[i].status)
    ensures forall i :: 0 <= i < |rows| ==> CountsAfter(statuses, rows)[rows[i].status] == rows[i].count
    ensures forall s :: s in statuses && (forall i :: 0 <= i < |rows| ==> rows[i].status != s) ==>
                         CountsAfter(statuses, rows)[s] == 0
    decreases |rows|
  {
    if |rows| > 0 {
      var front := rows[..|rows| - 1];
      CountsOfDistinctRows(statuses, front);
      assert forall i :: 0 <= i < |front| ==> front[i] == rows[i];
    }
  }

  /** The counts read back from the groups are the true counts, absent groups included. */
  lemma CountsAreTrue<S(!new)>(statuses: seq<S>, rows: seq<StatusCount<S>>, n: S -> nat)
    requires IsGrouping(rows, n)
    ensures forall s :: s in statuses ==> s in CountsAfter(statuses, rows) && CountsAfter(statuses, rows)[s] == n(s)
  {
    CountsOfDistinctRows(statuses, rows);
    forall s | s in statuses
      ensures s in CountsAfter(statuses, rows) && CountsAfter(statuses, rows)[s] == n(s)
    {
      if n(s) > 0 {
        var i :| 0 <= i < |rows| && rows[i].status == s;
      } else if i :| 0 <= i < |rows| && rows[i].status == s {
        assert n(rows[i].status) > 0;
      }
    }
  }
}
