/** What the printed timestamps say: their digits read back as the instant they were printed from. */
module IsoReading {
  import opened Calendar
  import opened TextOrder
  import opened Timestamps

  /** The number that decimal digits stand for. */
  function NumberIn(s: string): int {
    if s == "" then 0 else 10 * NumberIn(s[..|s| - 1]) + (s[|s| - 1] as int - '0' as int)
  }

  lemma {:induction false} DigitsRead(n: nat, w: nat)
    requires n < Pow(Decimal, w)
    ensures NumberIn(Digits(Decimal, n, w)) == n
  {
    if w > 0 {
      DigitsRead(n / 10, w - 1);
      DigitCode(n % 10);
      var s := Digits(Decimal, n, w);
      assert s[..|s| - 1] == Digits(Decimal, n / 10, w - 1);
    }
  }

  /** A separator and a fixed-width field in their place. */
  predicate HasField(t: string, at: nat, separator: char, n: int, w: nat) {
    at + 1 + w <= |t| && t[at] == separator && NumberIn(t[at + 1..at + 1 + w]) == n
  }

  lemma FieldReads(t: string, x: string, separator: char, n: nat, w: nat)
    requires n < Pow(Decimal, w) && x + ([separator] + Digits(Decimal, n, w)) <= t
    ensures x <= t && HasField(t, |x|, separator, n, w)
  {
    DigitsRead(n, w);
    var p := x + ([separator] + Digits(Decimal, n, w));
    assert t[..|p|] == p;
    assert t[|x|] == p[|x|];
    assert t[|x| + 1..|x| + 1 + w] == p[|x| + 1..|x| + 1 + w] == Digits(Decimal, n, w);
  }

  lemma TwoDigits()
    ensures Pow(Decimal, 2) == 100 && Pow(Decimal, 3) == 1000 && Pow(Decimal, 4) == 10_000
    ensures Pow(Decimal, 6) == 1_000_000
  {
    assert Pow(Decimal, 5) == 100_000;
  }

  /** The text has a date and a time of day after its year, and they are this second's. */
  predicate SaysSecond(t: string, at: nat, year: int, second: int) {
    var date := CivilOf(second / 60 / 60 / 24);
    && year == date.year
    && HasField(t, at, '-', date.month + 1, 2) && HasField(t, at + 3, '-', date.day, 2)
    && HasField(t, at + 6, 'T', second / 60 / 60 % 24, 2) && HasField(t, at + 9, ':', second / 60 % 60, 2)
    && HasField(t, at + 12, ':', second % 60, 2)
  }

  lemma SecondReads(style: YearStyle, second: int, t: string)
    requires SecondText(style, second) <= t
    ensures
      var year := CivilOf(second / 60 / 60 / 24).year;
      YearText(style, year) <= t && SaysSecond(t, |YearText(style, year)|, year, second)
  {
    var minute := second / 60;
    var hour := minute / 60;
    var c := CivilOf(hour / 24);
    TwoDigits();
    FieldReads(t, MinuteText(style, minute), ':', second % 60, 2);
    FieldReads(t, HourText(style, hour), ':', minute % 60, 2);
    FieldReads(t, DateText(style, hour / 24), 'T', hour % 24, 2);
    FieldReads(t, MonthText(style, c), '-', c.day, 2);
    FieldReads(t, YearText(style, c.year), '-', c.month + 1, 2);
  }

  /** The date and time that the fields behind a year of this text name, as a count of seconds. */
  function SecondIn(t: string, at: nat, year: int): int
    requires at + 15 <= |t| && NumberIn(t[at + 1..at + 3]) >= 1
  {
    var date := Civil(year, NumberIn(t[at + 1..at + 3]) - 1, NumberIn(t[at + 4..at + 6]));
    ((date.Number() * 24 + NumberIn(t[at + 7..at + 9])) * 60 + NumberIn(t[at + 10..at + 12])) * 60
    + NumberIn(t[at + 13..at + 15])
  }

  /** Separators in their places, and a date that exists. */
  predicate IsDateTime(t: string, at: nat, year: int) {
    && at + 15 <= |t| && t[at] == '-' && t[at + 3] == '-' && t[at + 6] == 'T' && t[at + 9] == ':' && t[at + 12] == ':'
    && NumberIn(t[at + 1..at + 3]) >= 1
    && Civil(year, NumberIn(t[at + 1..at + 3]) - 1, NumberIn(t[at + 4..at + 6])).Valid()
    && 0 <= NumberIn(t[at + 7..at + 9]) < 24 && 0 <= NumberIn(t[at + 10..at + 12]) < 60
    && 0 <= NumberIn(t[at + 13..at + 15]) < 60
  }

  lemma SecondIsIn(t: string, at: nat, year: int, second: int)
    requires SaysSecond(t, at, year, second)
    ensures IsDateTime(t, at, year) && SecondIn(t, at, year) == second
  {
    var date := CivilOf(second / 60 / 60 / 24);
    assert Civil(year, NumberIn(t[at + 1..at + 3]) - 1, NumberIn(t[at + 4..at + 6])) == date;
  }

  /** The year in front of the rest: four digits, or a sign and six. */
  predicate SaysYear(t: string, at: nat, year: int) {
    at <= |t|
    && if 0 <= year <= 9999 then at == 4 && NumberIn(t[..4]) == year
       else at == 7 && t[0] == (if year < 0 then '-' else '+') && NumberIn(t[1..7]) == if year < 0 then -year else year
  }

  lemma YearReads(t: string, year: int)
    requires -1_000_000 < year < 1_000_000 && YearText(Iso, year) <= t
    ensures SaysYear(t, |YearText(Iso, year)|, year)
  {
    var y := YearText(Iso, year);
    TwoDigits();
    assert t[..|y|] == y;
    if 0 <= year <= 9999 {
      DigitsRead(year, 4);
    } else {
      DigitsRead(if year < 0 then -year else year, 6);
      assert t[1..7] == y[1..7] == Digits(Decimal, if year < 0 then -year else year, 6);
    }
  }

  /**
   * An ISO text says its instant: it has a year, a date that exists, a time of day and milliseconds
   * in their places, and these add up to the instant it was printed from.
   */
  lemma {:induction false} IsoTextReads(ms: int)
    requires IsTimeValue(ms)
    ensures
      var t := IsoText(ms);
      var at := |t| - 20;
      && 0 <= at && t[at + 15] == '.' && t[at + 19] == 'Z'
      && exists year ::
           && SaysYear(t, at, year) && IsDateTime(t, at, year)
           && 0 <= NumberIn(t[at + 16..at + 19]) < 1000
           && ms == SecondIn(t, at, year) * 1000 + NumberIn(t[at + 16..at + 19])
  {
    var t := IsoText(ms);
    var x := SecondText(Iso, ms / 1000);
    var year := CivilOf(ms / 1000 / 60 / 60 / 24).year;
    TwoDigits();
    TimeValueYears(ms);
    FieldReads(t, x, '.', ms % 1000, 3);
    SecondReads(Iso, ms / 1000, t);
    var at := |YearText(Iso, year)|;
    YearReads(t, year);
    SecondIsIn(t, at, year, ms / 1000);
    assert |t| == at + 20;
  }

  /** The text of a database timestamp says its instant too, to the microsecond, for years 1 to 9999. */
  lemma {:induction false} TimestampTextReads(time: int)
    requires 1 <= CivilOf(time / 1_000_000 / 60 / 60 / 24).year <= 9999
    ensures
      var t := TimestampText(time);
      && |t| == 27 && t[19] == '.' && t[26] == 'Z'
      && IsDateTime(t, 4, NumberIn(t[..4]))
      && 0 <= NumberIn(t[20..26]) < 1_000_000
      && time == SecondIn(t, 4, NumberIn(t[..4])) * 1_000_000 + NumberIn(t[20..26])
  {
    var t := TimestampText(time);
    var second := time / 1_000_000;
    var year := CivilOf(second / 60 / 60 / 24).year;
    TwoDigits();
    FieldReads(t, SecondText(Sql, second), '.', time % 1_000_000, 6);
    SecondReads(Sql, second, t);
    assert YearText(Sql, year) == Digits(Decimal, year, 4);
    DigitsRead(year, 4);
    assert t[..4] == Digits(Decimal, year, 4);
    SecondIsIn(t, 4, year, second);
  }
}
