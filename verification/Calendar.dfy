/** The proleptic Gregorian calendar of JavaScript dates, and the evidence expiry one year on. */
module Calendar {
  const MS_PER_DAY := 86_400_000

  predicate IsLeap(year: int) {
    year % 4 == 0 && (year % 100 != 0 || year % 400 == 0)
  }

  function DaysInYear(year: int): (n: int)
    ensures 365 <= n <= 366
  {
    if IsLeap(year) then 366 else 365
  }

  /** The number of the first day of a year; 1 January 1970 is day 0. */
  function DayFromYear(year: int): int
    decreases if year >= 1970 then year - 1970 else 1970 - year
  {
    if year == 1970 then 0
    else if year > 1970 then DayFromYear(year - 1) + DaysInYear(year - 1)
    else DayFromYear(year + 1) - DaysInYear(year)
  }

  /** Years follow one another without gap. */
  lemma YearLength(year: int)
    ensures DayFromYear(year + 1) == DayFromYear(year) + DaysInYear(year)
  {
  }

  lemma {:induction false} YearsRise(a: int, b: int)
    requires a <= b
    ensures DayFromYear(a) + 365 * (b - a) <= DayFromYear(b)
    decreases b - a
  {
    if a < b {
      YearsRise(a, b - 1);
      YearLength(b - 1);
    }
  }

  /** The closed form of ECMA-262, section "Time-related Constants and Year Number". */
  lemma {:induction false} DayFromYearFormula(year: int)
    ensures DayFromYear(year) == 365 * (year - 1970) + (year - 1969) / 4 - (year - 1901) / 100 + (year - 1601) / 400
    decreases if year >= 1970 then year - 1970 else 1970 - year
  {
    if year > 1970 {
      DayFromYearFormula(year - 1);
      FormulaStep(year - 1);
    } else if year < 1970 {
      DayFromYearFormula(year + 1);
      FormulaStep(year);
    }
  }

  lemma FormulaStep(year: int)
    ensures (year - 1968) / 4 - (year - 1969) / 4 - (year - 1900) / 100 + (year - 1901) / 100
            + (year - 1600) / 400 - (year - 1601) / 400 == DaysInYear(year) - 365
  {
    FourYears(year);
    HundredYears(year);
    FourHundredYears(year);
  }

  lemma FourYears(year: int)
    ensures (year - 1968) / 4 - (year - 1969) / 4 == if year % 4 == 0 then 1 else 0
  {
  }

  lemma HundredYears(year: int)
    ensures (year - 1900) / 100 - (year - 1901) / 100 == if year % 100 == 0 then 1 else 0
    ensures year % 100 == 0 ==> year % 4 == 0
  {
  }

  lemma FourHundredYears(year: int)
    ensures (year - 1600) / 400 - (year - 1601) / 400 == if year % 400 == 0 then 1 else 0
    ensures year % 400 == 0 ==> year % 100 == 0
  {
  }

  function YearFrom(day: int, year: int): (y: int)
    requires DayFromYear(year) <= day
    ensures DayFromYear(y) <= day < DayFromYear(y + 1)
    decreases day - DayFromYear(year)
  {
    YearLength(year);
    if DayFromYear(year + 1) <= day then YearFrom(day, year + 1) else year
  }

  /** The year that a day falls in. */
  function YearOf(day: int): (y: int)
    ensures DayFromYear(y) <= day < DayFromYear(y + 1)
  {
    if day >= 0 then YearFrom(day, 1970)
    else
      YearsRise(1970 + day, 1970);
      YearFrom(day, 1970 + day)
  }

  lemma YearIs(day: int, year: int)
    requires DayFromYear(year) <= day < DayFromYear(year + 1)
    ensures YearOf(day) == year
  {
    var y := YearOf(day);
    if y < year {
      YearsRise(y + 1, year);
    } else if year < y {
      YearsRise(year + 1, y);
    }
  }

  /** Months count from 0. */
  function DaysIn(leap: bool, month: int): (n: int)
    ensures 28 <= n <= 31
  {
    if month == 1 then (if leap then 29 else 28)
    else if month == 3 || month == 5 || month == 8 || month == 10 then 30
    else 31
  }

  /** The days of a year before a month. */
  function DaysBefore(leap: bool, month: nat): nat {
    if month == 0 then 0 else DaysBefore(leap, month - 1) + DaysIn(leap, month - 1)
  }

  lemma {:induction false} MonthsRise(leap: bool, a: nat, b: nat)
    requires a <= b
    ensures DaysBefore(leap, a) + 28 * (b - a) <= DaysBefore(leap, b)
    decreases b
  {
    if a < b {
      MonthsRise(leap, a, b - 1);
    }
  }

  /** A month's first day, with the leap day counted in from March on. */
  lemma {:induction false} MonthStarts(leap: bool, month: nat)
    ensures DaysBefore(leap, month) == DaysBefore(false, month) + if leap && month > 1 then 1 else 0
  {
    if month > 0 {
      MonthStarts(leap, month - 1);
    }
  }

  lemma FirstMonths(leap: bool)
    ensures DaysBefore(leap, 1) == 31 && DaysBefore(leap, 2) == if leap then 60 else 59
  {
    assert DaysBefore(leap, 0) == 0;
    assert DaysBefore(leap, 1) == 31;
  }

  /** The months fill the year. */
  lemma MonthsFillYear(leap: bool)
    ensures DaysBefore(leap, 12) == if leap then 366 else 365
  {
    MonthStarts(leap, 12);
    assert DaysBefore(false, 4) == 120;
    assert DaysBefore(false, 8) == 243;
  }

  const MONTH_STARTS := [0, 31, 59, 90, 120, 151, 181, 212, 243, 273, 304, 334]

  /** The table of ECMA-262, "Month Number": where each month begins. */
  lemma {:induction false} MonthTable(leap: bool, month: nat)
    requires month < 12
    ensures DaysBefore(leap, month) == MONTH_STARTS[month] + if leap && month > 1 then 1 else 0
  {
    if month > 0 {
      MonthTable(leap, month - 1);
    }
  }

  datatype Civil = Civil(year: int, month: nat, day: int) {
    predicate Valid() {
      month < 12 && 1 <= day <= DaysIn(IsLeap(year), month)
    }

    function DayOfYear(): int {
      DaysBefore(IsLeap(year), month) + day - 1
    }

    /** The number of this date's day. */
    function Number(): int {
      DayFromYear(year) + DayOfYear()
    }

    predicate IsFebruary29() {
      month == 1 && day == 29
    }
  }

  function MonthFrom(leap: bool, dayOfYear: int, month: nat): (m: nat)
    requires month < 12 && DaysBefore(leap, month) <= dayOfYear < DaysBefore(leap, 12)
    ensures m < 12 && DaysBefore(leap, m) <= dayOfYear < DaysBefore(leap, m + 1)
    decreases 12 - month
  {
    if dayOfYear < DaysBefore(leap, month + 1) then month else MonthFrom(leap, dayOfYear, month + 1)
  }

  lemma MonthUnique(leap: bool, dayOfYear: int, m: nat, n: nat)
    requires DaysBefore(leap, m) <= dayOfYear < DaysBefore(leap, m + 1)
    requires DaysBefore(leap, n) <= dayOfYear < DaysBefore(leap, n + 1)
    ensures m == n
  {
    if m < n {
      MonthsRise(leap, m + 1, n);
    } else if n < m {
      MonthsRise(leap, n + 1, m);
    }
  }

  lemma WithinYear(day: int)
    ensures 0 <= day - DayFromYear(YearOf(day)) < DaysBefore(IsLeap(YearOf(day)), 12)
  {
    YearLength(YearOf(day));
    MonthsFillYear(IsLeap(YearOf(day)));
  }

  /** The date of a day: getUTCFullYear, getUTCMonth, getUTCDate. */
  function CivilOf(day: int): (c: Civil)
    ensures c.Valid() && c.Number() == day
  {
    WithinYear(day);
    var year := YearOf(day);
    var dayOfYear := day - DayFromYear(year);
    var month := MonthFrom(IsLeap(year), dayOfYear, 0);
    Civil(year, month, dayOfYear - DaysBefore(IsLeap(year), month) + 1)
  }

  lemma DayOfYearFits(c: Civil)
    requires c.Valid()
    ensures 0 <= c.DayOfYear() < DaysInYear(c.year)
    ensures DaysBefore(IsLeap(c.year), c.month) <= c.DayOfYear() < DaysBefore(IsLeap(c.year), c.month + 1)
  {
    MonthsRise(IsLeap(c.year), c.month + 1, 12);
    MonthsFillYear(IsLeap(c.year));
  }

  /** Dates and day numbers correspond one to one. */
  lemma CivilRoundTrip(c: Civil)
    requires c.Valid()
    ensures CivilOf(c.Number()) == c
  {
    DayOfYearFits(c);
    YearLength(c.year);
    YearIs(c.Number(), c.year);
    MonthUnique(IsLeap(c.year), c.DayOfYear(), CivilOf(c.Number()).month, c.month);
  }

  /** MakeDay: months and days outside their ranges carry over. */
  function MakeDay(year: int, month: nat, day: int): int {
    Civil(year + month / 12, month % 12, day).Number()
  }

  // ---- Instants ----

  function DayOf(ms: int): int {
    ms / MS_PER_DAY
  }

  function TimeOf(ms: int): int {
    ms % MS_PER_DAY
  }

  /** `Date.UTC` reads the years 0 to 99 as 1900 to 1999. */
  function UtcYear(year: int): int {
    if 0 <= year <= 99 then 1900 + year else year
  }

  /** The date set on the copy: a year on, its day cut to the length of the month looked up. */
  function DateSet(from: Civil): Civil {
    var lastDay := CivilOf(MakeDay(UtcYear(from.year + 1), from.month + 1, 0)).day;
    Civil(from.year + 1, from.month, if from.day < lastDay then from.day else lastDay)
  }

  function OneCalendarYearAfter(ms: int): int {
    var to := DateSet(CivilOf(DayOf(ms)));
    MakeDay(to.year, to.month, to.day) * MS_PER_DAY + TimeOf(ms)
  }

  predicate IsLeapDay(day: int) {
    CivilOf(day).IsFebruary29()
  }

  lemma LastOfMonth(year: int, month: nat)
    requires month < 12
    ensures CivilOf(MakeDay(year, month + 1, 0)) == Civil(year, month, DaysIn(IsLeap(year), month))
  {
    var c := Civil(year, month, DaysIn(IsLeap(year), month));
    if month == 11 {
      YearLength(year);
      MonthsFillYear(IsLeap(year));
      assert MakeDay(year, 12, 0) == DayFromYear(year + 1) - 1;
    }
    assert MakeDay(year, month + 1, 0) == c.Number();
    CivilRoundTrip(c);
  }

  /** The date one year on: the same month and day, and 28 February for a 29 February. */
  function NextYear(c: Civil): (d: Civil)
    requires c.Valid()
    ensures d.Valid()
  {
    Civil(c.year + 1, c.month, if c.IsFebruary29() then 28 else c.day)
  }

  lemma LeapGap(year: int)
    ensures IsLeap(year) ==> !IsLeap(year + 1) && !IsLeap(UtcYear(year + 1))
  {
  }

  /** The year looked up is another one exactly for years 0 to 99, and year 0 has a longer February. */
  lemma CenturyIsWrong(year: int)
    ensures UtcYear(year) != year <==> 0 <= year <= 99
    ensures 0 <= year <= 99 ==> UtcYear(year) == 1900 + year
    ensures DaysIn(IsLeap(0), 1) == 29 && DaysIn(IsLeap(UtcYear(0)), 1) == 28
  {
  }

  /** The wrong century that `Date.UTC` can look up never changes the clamped day. */
  lemma CenturyIsHarmless(c: Civil)
    requires c.Valid()
    ensures DateSet(c) == NextYear(c)
  {
    LeapGap(c.year);
    LastOfMonth(UtcYear(c.year + 1), c.month);
  }

  lemma SplitInstant(day: int, time: int)
    requires 0 <= time < MS_PER_DAY
    ensures DayOf(day * MS_PER_DAY + time) == day && TimeOf(day * MS_PER_DAY + time) == time
  {
  }

  lemma MonthInRange(c: Civil)
    requires c.Valid()
    ensures MakeDay(c.year, c.month, c.day) == c.Number()
  {
    assert c.month / 12 == 0 && c.month % 12 == c.month;
  }

  /** One calendar year on is the next year's date at the same time of day. */
  lemma YearAfterIsNextYear(ms: int)
    ensures DayOf(OneCalendarYearAfter(ms)) == NextYear(CivilOf(DayOf(ms))).Number()
    ensures TimeOf(OneCalendarYearAfter(ms)) == TimeOf(ms)
  {
    CenturyIsHarmless(CivilOf(DayOf(ms)));
    MonthInRange(NextYear(CivilOf(DayOf(ms))));
    SplitInstant(NextYear(CivilOf(DayOf(ms))).Number(), TimeOf(ms));
  }

  // ---- Leap days between ----

  /** Where a date stands to its own year's 29 February, which is day 59 of the year. */
  lemma AroundFebruary(c: Civil)
    requires c.Valid()
    ensures c.month <= 1 && !c.IsFebruary29() ==> c.DayOfYear() < 59
    ensures c.IsFebruary29() <==> IsLeap(c.year) && c.DayOfYear() == 59
    ensures c.month > 1 ==> c.DayOfYear() >= (if IsLeap(c.year) then 60 else 59)
  {
    FirstMonths(IsLeap(c.year));
    if c.month > 1 {
      MonthsRise(IsLeap(c.year), 2, c.month);
    }
  }

  lemma LeapDayIs(day: int)
    requires IsLeapDay(day)
    ensures IsLeap(YearOf(day)) && day == DayFromYear(YearOf(day)) + 59
  {
    AroundFebruary(CivilOf(day));
  }

  lemma FebruaryTwentyNinth(year: int)
    requires IsLeap(year)
    ensures IsLeapDay(DayFromYear(year) + 59)
  {
    FirstMonths(true);
    CivilRoundTrip(Civil(year, 1, 29));
  }

  /** Whether a step of one year passes the 29 February of the first or of the second year. */
  predicate PassesFirst(c: Civil) {
    IsLeap(c.year) && c.month <= 1 && !c.IsFebruary29()
  }

  predicate PassesSecond(c: Civil) {
    IsLeap(c.year + 1) && c.month > 1
  }

  lemma StepLength(c: Civil)
    requires c.Valid()
    ensures NextYear(c).Number() - c.Number() == 365 + if PassesFirst(c) || PassesSecond(c) then 1 else 0
  {
    YearLength(c.year);
    LeapGap(c.year);
    MonthStarts(IsLeap(c.year), c.month);
    MonthStarts(IsLeap(c.year + 1), c.month);
  }

  lemma PassesIsBetween(c: Civil, year: int)
    requires c.Valid() && IsLeap(year) && (year == c.year || year == c.year + 1)
    ensures
      c.Number() < DayFromYear(year) + 59 <= NextYear(c).Number()
      <==> if year == c.year then PassesFirst(c) else PassesSecond(c)
  {
    LeapGap(c.year);
    YearLength(c.year);
    AroundFebruary(c);
    AroundFebruary(NextYear(c));
    DayOfYearFits(c);
    DayOfYearFits(NextYear(c));
  }

  lemma YearWithin(c: Civil, n: int)
    requires c.Valid() && c.Number() < n <= NextYear(c).Number()
    ensures YearOf(n) == c.year || YearOf(n) == c.year + 1
  {
    DayOfYearFits(c);
    DayOfYearFits(NextYear(c));
    YearLength(c.year + 1);
    if n < DayFromYear(c.year + 1) {
      YearIs(n, c.year);
    } else {
      YearIs(n, c.year + 1);
    }
  }

  lemma PassedLeapDay(c: Civil) returns (n: int)
    requires c.Valid() && (PassesFirst(c) || PassesSecond(c))
    ensures c.Number() < n <= NextYear(c).Number() && IsLeapDay(n)
  {
    var year := if PassesFirst(c) then c.year else c.year + 1;
    FebruaryTwentyNinth(year);
    PassesIsBetween(c, year);
    n := DayFromYear(year) + 59;
  }

  lemma LeapDayPasses(c: Civil, n: int)
    requires c.Valid() && c.Number() < n <= NextYear(c).Number() && IsLeapDay(n)
    ensures PassesFirst(c) || PassesSecond(c)
  {
    LeapDayIs(n);
    YearWithin(c, n);
    PassesIsBetween(c, YearOf(n));
  }

  ghost predicate LeapDayIn(first: int, last: int) {
    exists n :: first < n <= last && IsLeapDay(n)
  }

  /** How far one year on is from a day. */
  function Step(day: int): int {
    NextYear(CivilOf(day)).Number() - day
  }

  lemma StepAroundLeapDay(day: int)
    ensures Step(day) == if LeapDayIn(day, day + Step(day)) then 366 else 365
  {
    var c := CivilOf(day);
    StepLength(c);
    if PassesFirst(c) || PassesSecond(c) {
      var n := PassedLeapDay(c);
    } else if n :| c.Number() < n <= NextYear(c).Number() && IsLeapDay(n) {
      LeapDayPasses(c, n);
    }
  }

  /**
   * The evidence window is 365 days, or 366 exactly when a 29 February lies after its first day
   * and up to its last. The time of day is kept.
   */
  lemma {:induction false} YearIs365Or366(ms: int)
    ensures
      var first := DayOf(ms);
      var last := DayOf(OneCalendarYearAfter(ms));
      && TimeOf(OneCalendarYearAfter(ms)) == TimeOf(ms)
      && last - first == if LeapDayIn(first, last) then 366 else 365
  {
    YearAfterIsNextYear(ms);
    StepAroundLeapDay(DayOf(ms));
  }

  // ---- Order ----

  lemma StepFromLeapDay(day: int)
    requires IsLeapDay(day)
    ensures Step(day) == 365 && Step(day - 1) == 366
  {
    StepLength(CivilOf(day));
    StepAroundLeapDay(day - 1);
  }

  lemma ShorterStep(day: int)
    requires Step(day) == 366 && Step(day + 1) == 365
    ensures IsLeapDay(day + 1)
  {
    StepAroundLeapDay(day);
    StepAroundLeapDay(day + 1);
    var n :| day < n <= day + 366 && IsLeapDay(n);
    assert !(day + 1 < n <= day + 1 + 365);
  }

  lemma StepKeepsOrder(a: int, b: int)
    requires a < b
    ensures a + Step(a) <= b + Step(b)
    ensures a + Step(a) == b + Step(b) <==> IsLeapDay(b) && a == b - 1
  {
    StepLength(CivilOf(a));
    StepLength(CivilOf(b));
    if IsLeapDay(b) {
      StepFromLeapDay(b);
    } else if a + Step(a) >= b + Step(b) {
      ShorterStep(a);
    }
  }

  /**
   * A later end never expires on an earlier day. It expires at an earlier instant in exactly one
   * case: it falls on a 29 February, and the earlier end on the 28th at a later time of day.
   */
  lemma {:induction false} ExpiryOrder(a: int, b: int)
    requires a <= b
    ensures DayOf(OneCalendarYearAfter(a)) <= DayOf(OneCalendarYearAfter(b))
    ensures OneCalendarYearAfter(b) < OneCalendarYearAfter(a)
            <==> IsLeapDay(DayOf(b)) && DayOf(a) == DayOf(b) - 1 && TimeOf(b) < TimeOf(a)
  {
    YearAfterIsNextYear(a);
    YearAfterIsNextYear(b);
    assert DayOf(a) <= DayOf(b);
    if DayOf(a) < DayOf(b) {
      StepKeepsOrder(DayOf(a), DayOf(b));
    }
  }
}
