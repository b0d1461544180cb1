/** Which texts and which property names the value policy restricts, in plain terms. */
module PolicyNames {
  import opened Options
  import opened CodeUnits
  import opened ActionPolicy

  /** The text is these three pieces in a row. */
  predicate IsJoin(t: Text, head: Text, middle: Text, tail: Text) {
    t == head + (middle + tail)
  }

  // ---- Texts ----

  /** A link, a data or storage address, or a signing parameter, in upper or lower case. */
  predicate IsMark(m: Text) {
    LowerCase(m) in {
      Units("http://"), Units("https://"), Units("data:"), Units("s3://"), Units("x-amz-"), Units("signature=")}
  }

  /** The word "signed", in upper or lower case, with no letter, digit or underscore on either side. */
  predicate IsSignedWord(head: Text, m: Text, tail: Text) {
    && LowerCase(m) == Units("signed")
    && (head == [] || !IsWordUnit(head[|head| - 1]))
    && (tail == [] || !IsWordUnit(tail[0]))
  }

  lemma MarksListed(m: Text)
    ensures m in UNSAFE_MARKS <==>
      m in {
        Units("http://"), Units("https://"), Units("data:"), Units("s3://"), Units("x-amz-"), Units("signature=")}
  {
    var marks := UNSAFE_MARKS;
    assert marks == [
        Units("http://"), Units("https://"), Units("data:"), Units("s3://"), Units("x-amz-"), Units("signature=")];
    assert m in marks <==>
      m == marks[0] || m == marks[1] || m == marks[2] || m == marks[3] || m == marks[4] || m == marks[5];
  }

  lemma LowerOfJoin(head: Text, middle: Text, tail: Text)
    ensures LowerCase(head + (middle + tail)) == LowerCase(head) + (LowerCase(middle) + LowerCase(tail))
  {
  }

  /** Where a word occurs in a lowered text the text itself splits in three. */
  lemma OccursSplits(s: Text, word: Text, i: nat)
    requires OccursAt(LowerCase(s), word, i)
    ensures i + |word| <= |s| && IsJoin(s, s[..i], s[i..i + |word|], s[i + |word|..])
    ensures LowerCase(s[i..i + |word|]) == word
  {
  }

  lemma SplitOccurs(s: Text, head: Text, middle: Text, tail: Text)
    requires IsJoin(s, head, middle, tail)
    ensures OccursAt(LowerCase(s), LowerCase(middle), |head|) && |head| + |middle| <= |LowerCase(s)|
  {
    LowerOfJoin(head, middle, tail);
  }

  lemma SignedBoundaries(s: Text, head: Text, middle: Text, tail: Text)
    requires IsJoin(s, head, middle, tail) && LowerCase(middle) == Units("signed")
    ensures |head| + 6 <= |LowerCase(s)|
    ensures IsBoundary(LowerCase(s), |head|) && IsBoundary(LowerCase(s), |head| + 6)
            <==> IsSignedWord(head, middle, tail)
  {
    var t := LowerCase(s);
    LowerOfJoin(head, middle, tail);
    assert t[|head|] == Units("signed")[0] && t[|head| + 5] == Units("signed")[5];
    assert IsWordUnit(t[|head|]) && IsWordUnit(t[|head| + 5]);
  }

  ghost predicate HoldsMark(s: Text) {
    exists head, middle, tail :: IsJoin(s, head, middle, tail) && IsMark(middle)
  }

  ghost predicate HoldsSignedWord(s: Text) {
    exists head, middle, tail :: IsJoin(s, head, middle, tail) && IsSignedWord(head, middle, tail)
  }

  lemma MarkExactly(s: Text)
    ensures (exists m :: m in UNSAFE_MARKS && Includes(LowerCase(s), m)) <==> HoldsMark(s)
  {
    if m :| m in UNSAFE_MARKS && Includes(LowerCase(s), m) {
      var i :| 0 <= i <= |LowerCase(s)| && OccursAt(LowerCase(s), m, i);
      OccursSplits(s, m, i);
      MarksListed(m);
      assert IsMark(s[i..i + |m|]);
    }
    if head, middle, tail :| IsJoin(s, head, middle, tail) && IsMark(middle) {
      SplitOccurs(s, head, middle, tail);
      MarksListed(LowerCase(middle));
      assert Includes(LowerCase(s), LowerCase(middle));
    }
  }

  lemma SignedAt(s: Text, i: nat)
    requires i + |SIGNED| <= |LowerCase(s)| && OccursAt(LowerCase(s), SIGNED, i)
    requires IsBoundary(LowerCase(s), i) && IsBoundary(LowerCase(s), i + |SIGNED|)
    ensures HoldsSignedWord(s)
  {
    OccursSplits(s, SIGNED, i);
    SignedBoundaries(s, s[..i], s[i..i + |SIGNED|], s[i + |SIGNED|..]);
  }

  lemma SignedOccurs(s: Text, head: Text, middle: Text, tail: Text)
    requires IsJoin(s, head, middle, tail) && IsSignedWord(head, middle, tail)
    ensures IncludesWord(LowerCase(s), SIGNED)
  {
    SplitOccurs(s, head, middle, tail);
    SignedBoundaries(s, head, middle, tail);
    assert OccursAt(LowerCase(s), SIGNED, |head|);
  }

  lemma SignedExactly(s: Text)
    ensures IncludesWord(LowerCase(s), SIGNED) <==> HoldsSignedWord(s)
  {
    var t := LowerCase(s);
    if IncludesWord(t, SIGNED) {
      var i :| 0 <= i <= |t| && OccursAt(t, SIGNED, i) && IsBoundary(t, i) && IsBoundary(t, i + |SIGNED|);
      SignedAt(s, i);
    }
    if HoldsSignedWord(s) {
      var head, middle, tail :| IsJoin(s, head, middle, tail) && IsSignedWord(head, middle, tail);
      SignedOccurs(s, head, middle, tail);
    }
  }

  /** A text is restricted exactly when it holds such a mark, or "signed" as a word of its own. */
  lemma UnsafeTextExactly(s: Text)
    ensures HasUnsafeText(s) <==> HoldsMark(s) || HoldsSignedWord(s)
  {
    MarkExactly(s);
    SignedExactly(s);
  }

  // ---- Names ----

  const UNDERSCORE: Unit := '_' as int

  /**
   * The snake case spelling, for all names: letters go to lower case, and an underscore is put
   * between two parts exactly where a lower-case letter meets an upper-case one.
   */
  lemma {:induction false} SnakeOfJoin(a: Text, b: Text)
    requires a != [] && b != []
    ensures SnakeCase(a + b) ==
      SnakeCase(a)
      + ((if 'a' as int <= a[|a| - 1] <= 'z' as int && 'A' as int <= b[0] <= 'Z' as int then [UNDERSCORE] else [])
         + SnakeCase(b))
  {
    assert (a + b)[1..] == a[1..] + b;
    if |a| > 1 {
      SnakeOfJoin(a[1..], b);
    } else {
      assert a[1..] + b == b;
    }
  }

  lemma SnakeOfOne(u: Unit)
    ensures SnakeCase([u]) == [if 'A' as int <= u <= 'Z' as int then u + 32 else u]
    ensures SnakeCase([]) == []
  {
  }

  /** A piece between separators, or between a separator and an end. */
  predicate Stands(t: Text, separator: Unit, head: Text, part: Text, tail: Text) {
    && IsJoin(t, head, part, tail)
    && (head == [] || head[|head| - 1] == separator) && (tail == [] || tail[0] == separator)
  }

  lemma {:induction false} PartStands(t: Text, separator: Unit, i: nat) returns (head: Text, tail: Text)
    requires i < |Split(t, separator)|
    ensures Stands(t, separator, head, Split(t, separator)[i], tail)
    ensures head == [] <==> i == 0
  {
    head, tail := [], t;
    if t == [] || (t[0] == separator && i == 0) {
      assert t == [] + ([] + t);
    } else if t[0] == separator {
      head, tail := PartStands(t[1..], separator, i - 1);
      assert t == [t[0]] + t[1..];
      assert [t[0]] + (head + (Split(t, separator)[i] + tail)) == ([t[0]] + head) + (Split(t, separator)[i] + tail);
      head := [t[0]] + head;
    } else {
      head, tail := PartStands(t[1..], separator, i);
      assert t == [t[0]] + t[1..];
      if i == 0 {
        var first := Split(t[1..], separator)[0];
        assert [t[0]] + ([] + (first + tail)) == [] + (([t[0]] + first) + tail);
      } else {
        assert [t[0]] + (head + (Split(t, separator)[i] + tail)) == ([t[0]] + head) + (Split(t, separator)[i] + tail);
        head := [t[0]] + head;
      }
    }
  }

  lemma {:induction false} StandingIsPart(t: Text, separator: Unit, head: Text, part: Text, tail: Text)
    returns (i: nat)
    requires Stands(t, separator, head, part, tail) && separator !in part
    ensures i < |Split(t, separator)| && Split(t, separator)[i] == part
    ensures head == [] <==> i == 0
    decreases |t|
  {
    if head != [] {
      assert t[0] == head[0] && t[1..] == head[1..] + (part + tail);
      i := StandingIsPart(t[1..], separator, head[1..], part, tail);
      if t[0] == separator {
        i := i + 1;
      }
    } else if part != [] {
      assert t[0] == part[0] && t[1..] == [] + (part[1..] + tail);
      i := StandingIsPart(t[1..], separator, [], part[1..], tail);
    } else {
      assert t == tail;
      i := 0;
    }
  }

  lemma NoUnderscore(s: string)
    requires '_' !in s
    ensures UNDERSCORE !in Units(s)
  {
  }

  lemma TokensAreWords(w: Text)
    requires w in UNSAFE_TOKENS
    ensures UNDERSCORE !in w
  {
    NoUnderscore("attachment");
    NoUnderscore("body");
    NoUnderscore("comment");
    NoUnderscore("content");
    NoUnderscore("credential");
    NoUnderscore("credentials");
    NoUnderscore("description");
    NoUnderscore("detail");
    NoUnderscore("evidence");
    NoUnderscore("file");
    NoUnderscore("link");
    NoUnderscore("message");
    NoUnderscore("password");
    NoUnderscore("payload");
    NoUnderscore("raw");
    NoUnderscore("reason");
    NoUnderscore("secret");
    NoUnderscore("signature");
    NoUnderscore("session");
    NoUnderscore("signed");
    NoUnderscore("token");
    NoUnderscore("text");
    NoUnderscore("url");
  }

  /** The exempt word, alone or after an underscore, ends the name. */
  ghost predicate EndsInReasonCode(name: Text) {
    exists head :: IsJoin(name, head, Units("reason_code"), []) && (head == [] || head[|head| - 1] == UNDERSCORE)
  }

  ghost predicate HoldsReasonText(name: Text) {
    exists head, tail :: IsJoin(name, head, Units("reason_text"), tail)
  }

  ghost predicate HoldsToken(name: Text) {
    exists head, word, tail :: Stands(name, UNDERSCORE, head, word, tail) && word in UNSAFE_TOKENS
  }

  lemma ReasonCodeExactly(name: Text)
    ensures name == REASON_CODE || EndsWith(name, [UNDERSCORE] + REASON_CODE) <==> EndsInReasonCode(name)
  {
    if name == REASON_CODE {
      assert IsJoin(name, [], Units("reason_code"), []);
    } else if EndsWith(name, [UNDERSCORE] + REASON_CODE) {
      var head := name[..|name| - |REASON_CODE|];
      assert head[|head| - 1] == name[|name| - |REASON_CODE| - 1..][0];
      assert name == head + REASON_CODE;
      assert IsJoin(name, head, Units("reason_code"), []);
    }
    if head :| IsJoin(name, head, Units("reason_code"), []) && (head == [] || head[|head| - 1] == UNDERSCORE) {
      assert name == head + REASON_CODE;
      if head != [] {
        assert head == head[..|head| - 1] + [UNDERSCORE];
        assert name[|head| - 1..] == [UNDERSCORE] + REASON_CODE;
      }
    }
  }

  lemma ReasonTextExactly(name: Text)
    ensures Includes(name, REASON_TEXT) <==> HoldsReasonText(name)
  {
    if i :| 0 <= i <= |name| && OccursAt(name, REASON_TEXT, i) {
      assert IsJoin(name, name[..i], Units("reason_text"), name[i + |REASON_TEXT|..]);
    }
    if head, tail :| IsJoin(name, head, Units("reason_text"), tail) {
      assert OccursAt(name, REASON_TEXT, |head|);
    }
  }

  lemma TokenExactly(name: Text)
    ensures HasUnsafeToken(Split(name, UNDERSCORE)) <==> HoldsToken(name)
  {
    var parts := Split(name, UNDERSCORE);
    if part :| part in parts && part in UNSAFE_TOKENS {
      var i :| 0 <= i < |parts| && parts[i] == part;
      var head, tail := PartStands(name, UNDERSCORE, i);
    }
    if head, word, tail :| Stands(name, UNDERSCORE, head, word, tail) && word in UNSAFE_TOKENS {
      TokensAreWords(word);
      var i := StandingIsPart(name, UNDERSCORE, head, word, tail);
    }
  }

  /**
   * A name is restricted exactly when its snake case spelling does not end in the exempt word, and
   * holds "reason_text" or has a restricted word between its underscores.
   */
  lemma {:induction false} RestrictedNameExactly(key: Text)
    ensures
      var name := SnakeCase(key);
      HasUnsafeKey(key) <==> !EndsInReasonCode(name) && (HoldsReasonText(name) || HoldsToken(name))
  {
    ReasonCodeExactly(SnakeCase(key));
    ReasonTextExactly(SnakeCase(key));
    TokenExactly(SnakeCase(key));
  }
}
