/** Timestamps as text: the merge comparator against the SQL row order, and ISO dates. */
module Timestamps {
  import opened Calendar
  import opened Options
  import opened TextOrder
  import opened RowOrder
  import ModerationContext
  import MemberHistory
  import ReportList

  /** PostgreSQL's `YYYY` prints at least four digits; ECMA-262 prints four, or a sign and six. */
  datatype YearStyle = Sql | Iso

  function AtLeast(n: nat, w: nat): string
    decreases n + 1 - Pow(Decimal, w), w
  {
    if n < Pow(Decimal, w) then Digits(Decimal, n, w) else AtLeast(n, w + 1)
  }

  function YearText(style: YearStyle, year: int): string {
    match style
    case Sql => AtLeast(if year >= 1 then year else 1 - year, 4)
    case Iso =>
      if 0 <= year <= 9999 then Digits(Decimal, year, 4)
      else (if year < 0 then "-" else "+") + Digits(Decimal, if year < 0 then -year else year, 6)
  }

  function MonthText(style: YearStyle, c: Civil): string {
    YearText(style, c.year) + ("-" + Digits(Decimal, c.month + 1, 2))
  }

  function CivilText(style: YearStyle, c: Civil): string
    requires c.Valid()
  {
    MonthText(style, c) + ("-" + Digits(Decimal, c.day, 2))
  }

  function DateText(style: YearStyle, day: int): string {
    CivilText(style, CivilOf(day))
  }

  /** The text of a second since 1970, up to the second. */
  function SecondText(style: YearStyle, second: int): string {
    MinuteText(style, second / 60) + (":" + Digits(Decimal, second % 60, 2))
  }

  function MinuteText(style: YearStyle, minute: int): string {
    HourText(style, minute / 60) + (":" + Digits(Decimal, minute % 60, 2))
  }

  function HourText(style: YearStyle, hour: int): string {
    DateText(style, hour / 24) + ("T" + Digits(Decimal, hour % 24, 2))
  }

  /** `to_char(... AT TIME ZONE 'UTC', 'YYYY-MM-DD"T"HH24:MI:SS.US"Z"')` of a microsecond time. */
  function TimestampText(time: int): string {
    (SecondText(Sql, time / 1_000_000) + ("." + Digits(Decimal, time % 1_000_000, 6))) + "Z"
  }

  /** `toISOString` of a millisecond time. */
  function IsoText(ms: int): string {
    (SecondText(Iso, ms / 1000) + ("." + Digits(Decimal, ms % 1000, 3))) + "Z"
  }

  // ---- Text order is time order ----

  function MonthKey(c: Civil): int {
    13 * c.year + (c.month + 1)
  }

  function DateKey(c: Civil): int {
    32 * MonthKey(c) + c.day
  }

  lemma YearFirst(c: Civil, d: Civil)
    requires c.Valid() && d.Valid() && c.year < d.year
    ensures c.Number() < d.Number()
  {
    DayOfYearFits(c);
    DayOfYearFits(d);
    YearLength(c.year);
    YearsRise(c.year + 1, d.year);
  }

  lemma MonthNext(c: Civil, d: Civil)
    requires c.Valid() && d.Valid() && c.year == d.year && c.month < d.month
    ensures c.Number() < d.Number()
  {
    DayOfYearFits(c);
    DayOfYearFits(d);
    MonthsRise(IsLeap(c.year), c.month + 1, d.month);
  }

  lemma LaterDate(c: Civil, d: Civil)
    requires c.Valid() && d.Valid() && c.Number() < d.Number()
    ensures DateKey(c) < DateKey(d)
  {
    if d.year < c.year {
      YearFirst(d, c);
    } else if d.year == c.year && d.month < c.month {
      MonthNext(d, c);
    }
  }

  lemma DatesOrder(c: Civil, d: Civil)
    requires c.Valid() && d.Valid()
    ensures c.Number() < d.Number() <==> DateKey(c) < DateKey(d)
    ensures c.Number() == d.Number() <==> DateKey(c) == DateKey(d)
  {
    if c.Number() < d.Number() {
      LaterDate(c, d);
    } else if d.Number() < c.Number() {
      LaterDate(d, c);
    } else {
      CivilRoundTrip(c);
      CivilRoundTrip(d);
    }
  }

  /** Two more digits after a separator keep a text ordering like its number. */
  lemma TwoMoreDigits(ordered: bool, x: string, y: string, sep: string, k: nat, p: int, r: nat, q: int, t: nat)
    requires r < k <= 100 && t < k && Agree(ordered, x, p, y, q)
    ensures Agree(ordered, x + (sep + Digits(Decimal, r, 2)), k * p + r, y + (sep + Digits(Decimal, t, 2)), k * q + t)
  {
    assert Pow(Decimal, 2) == 100;
    DigitsAgree(Decimal, r, t, 2);
    JoinAgrees(ordered, x, y, sep, Digits(Decimal, r, 2), Digits(Decimal, t, 2), k, p, r, q, t);
  }

  lemma CivilsAgree(ordered: bool, style: YearStyle, c: Civil, d: Civil)
    requires c.Valid() && d.Valid() && Agree(ordered, YearText(style, c.year), c.year, YearText(style, d.year), d.year)
    ensures Agree(ordered, CivilText(style, c), DateKey(c), CivilText(style, d), DateKey(d))
  {
    DayAndMonth(ordered, YearText(style, c.year), c, YearText(style, d.year), d);
  }

  lemma DayAndMonth(ordered: bool, x: string, c: Civil, y: string, d: Civil)
    requires c.Valid() && d.Valid() && Agree(ordered, x, c.year, y, d.year)
    ensures
      Agree(
        ordered, (x + ("-" + Digits(Decimal, c.month + 1, 2))) + ("-" + Digits(Decimal, c.day, 2)), DateKey(c),
        (y + ("-" + Digits(Decimal, d.month + 1, 2))) + ("-" + Digits(Decimal, d.day, 2)), DateKey(d))
  {
    TwoMoreDigits(ordered, x, y, "-", 13, c.year, c.month + 1, d.year, d.month + 1);
    TwoMoreDigits(
      ordered, x + ("-" + Digits(Decimal, c.month + 1, 2)), y + ("-" + Digits(Decimal, d.month + 1, 2)), "-",
      32, MonthKey(c), c.day, MonthKey(d), d.day);
  }

  lemma DatesAgree(ordered: bool, style: YearStyle, a: int, b: int)
    requires
      var y, z := CivilOf(a).year, CivilOf(b).year;
      Agree(ordered, YearText(style, y), y, YearText(style, z), z)
    ensures Agree(ordered, DateText(style, a), a, DateText(style, b), b)
  {
    CivilsAgree(ordered, style, CivilOf(a), CivilOf(b));
    DatesOrder(CivilOf(a), CivilOf(b));
  }

  lemma SecondsAgree(ordered: bool, style: YearStyle, a: int, b: int)
    requires
      var p, q := a / 60 / 60 / 24, b / 60 / 60 / 24;
      Agree(ordered, DateText(style, p), p, DateText(style, q), q)
    ensures Agree(ordered, SecondText(style, a), a, SecondText(style, b), b)
  {
    HoursAgree(ordered, style, a / 60 / 60, b / 60 / 60);
    MinutesAgree(ordered, style, a / 60, b / 60);
    TwoMoreDigits(
      ordered, MinuteText(style, a / 60), MinuteText(style, b / 60), ":", 60, a / 60, a % 60, b / 60, b % 60);
  }

  lemma MinutesAgree(ordered: bool, style: YearStyle, a: int, b: int)
    requires Agree(ordered, HourText(style, a / 60), a / 60, HourText(style, b / 60), b / 60)
    ensures Agree(ordered, MinuteText(style, a), a, MinuteText(style, b), b)
  {
    TwoMoreDigits(ordered, HourText(style, a / 60), HourText(style, b / 60), ":", 60, a / 60, a % 60, b / 60, b % 60);
  }

  lemma HoursAgree(ordered: bool, style: YearStyle, a: int, b: int)
    requires Agree(ordered, DateText(style, a / 24), a / 24, DateText(style, b / 24), b / 24)
    ensures Agree(ordered, HourText(style, a), a, HourText(style, b), b)
  {
    TwoMoreDigits(ordered, DateText(style, a / 24), DateText(style, b / 24), "T", 24, a / 24, a % 24, b / 24, b % 24);
  }

  /** The day of a microsecond timestamp. */
  function DayOfTime(time: int): int {
    time / 1_000_000 / 60 / 60 / 24
  }

  function YearOfTime(time: int): int {
    CivilOf(DayOfTime(time)).year
  }

  lemma FourDigitYears(y: int, z: int)
    requires 1 <= y <= 9999 && 1 <= z <= 9999
    ensures Agree(true, YearText(Sql, y), y, YearText(Sql, z), z)
  {
    assert Pow(Decimal, 4) == 10_000;
    DigitsAgree(Decimal, y, z, 4);
  }

  /** Timestamp texts of four-digit years order as the times do. */
  lemma TimestampsAgree(a: int, b: int)
    requires 1 <= YearOfTime(a) <= 9999 && 1 <= YearOfTime(b) <= 9999
    ensures Agree(true, TimestampText(a), a, TimestampText(b), b)
  {
    FourDigitYears(YearOfTime(a), YearOfTime(b));
    DatesAgree(true, Sql, DayOfTime(a), DayOfTime(b));
    SecondsAgree(true, Sql, a / 1_000_000, b / 1_000_000);
    MicrosAgree(a, b);
  }

  lemma MicrosAgree(a: int, b: int)
    requires Agree(true, SecondText(Sql, a / 1_000_000), a / 1_000_000, SecondText(Sql, b / 1_000_000), b / 1_000_000)
    ensures Agree(true, TimestampText(a), a, TimestampText(b), b)
  {
    assert Pow(Decimal, 6) == 1_000_000;
    var r, t := a % 1_000_000, b % 1_000_000;
    DigitsAgree(Decimal, r, t, 6);
    var x := SecondText(Sql, a / 1_000_000) + ("." + Digits(Decimal, r, 6));
    var y := SecondText(Sql, b / 1_000_000) + ("." + Digits(Decimal, t, 6));
    JoinAgrees(
      true, SecondText(Sql, a / 1_000_000), SecondText(Sql, b / 1_000_000), ".",
      Digits(Decimal, r, 6), Digits(Decimal, t, 6),
      1_000_000, a / 1_000_000, r, b / 1_000_000, t);
    TextAfter(x, "Z", y, "Z");
    TextOrderIsTotal("Z", "Z");
    JoinsEqual(x, "Z", y, "Z");
  }

  ghost predicate OrderedByText(a: int, b: int) {
    TextLess(TimestampText(a), TimestampText(b)) <==> a < b
  }

  /** The first instant of a year. */
  function YearStart(year: int): int {
    DayFromYear(year) * 86_400_000_000
  }

  lemma StartOfYear(year: int)
    ensures YearOfTime(YearStart(year)) == year && YearStart(year) < YearStart(year + 1)
  {
    assert DayOfTime(YearStart(year)) == DayFromYear(year);
    YearLength(year);
    YearIs(DayFromYear(year), year);
  }

  lemma TextStartsWithYear(time: int)
    ensures |TimestampText(time)| > 0 && |YearText(Sql, YearOfTime(time))| > 0
    ensures TimestampText(time)[0] == YearText(Sql, YearOfTime(time))[0]
  {
    YearHasDigits(if YearOfTime(time) >= 1 then YearOfTime(time) else 1 - YearOfTime(time), 4);
  }

  lemma YearHasDigits(n: nat, w: nat)
    ensures |AtLeast(n, w)| >= w
    decreases n + 1 - Pow(Decimal, w), w
  {
    if n >= Pow(Decimal, w) {
      YearHasDigits(n, w + 1);
    }
  }

  lemma LeadingYear(time: int, w: nat)
    requires (YearOfTime(time) == 9999 && w == 4) || (YearOfTime(time) == 10_000 && w == 5)
    ensures TimestampText(time) != "" && TimestampText(time)[0] == if w == 4 then '9' else '1'
  {
    TextStartsWithYear(time);
    FirstYearDigit(YearOfTime(time), w);
  }

  /** From the year 10000 on the text is a digit longer and sorts among the earliest. */
  lemma FiveDigitYear(a: int, b: int)
    requires YearOfTime(a) == 9999 && YearOfTime(b) == 10_000 && a < b
    ensures !OrderedByText(a, b)
  {
    LeadingYear(a, 4);
    LeadingYear(b, 5);
    FirstDecides(TimestampText(a), TimestampText(b));
  }

  lemma FirstYearDigit(year: nat, w: nat)
    requires (year == 9999 && w == 4) || (year == 10_000 && w == 5)
    ensures YearText(Sql, year) != "" && YearText(Sql, year)[0] == if w == 4 then '9' else '1'
  {
    assert Pow(Decimal, 4) == 10_000 && Pow(Decimal, 5) == 100_000;
    assert YearText(Sql, year) == Digits(Decimal, year, w);
    LeadingDigit(year, w);
  }

  lemma LeadingDigit(n: nat, w: nat)
    requires w > 0
    ensures Digits(Decimal, n, w)[0] == DigitChar(n / Pow(Decimal, w - 1) % 10)
  {
    if w > 1 {
      LeadingDigit(n / 10, w - 1);
      DivideTwice(n, Pow(Decimal, w - 2));
    }
  }

  lemma DivideTwice(n: nat, p: nat)
    requires p > 0
    ensures n / 10 / p == n / (10 * p)
  {
    var q, r := n / 10 / p, n / 10 % p;
    assert n / 10 == p * q + r;
    assert n == 10 * p * q + (10 * r + n % 10);
    QuotientIs(n, 10 * p, q, 10 * r + n % 10);
  }

  lemma QuotientIs(n: nat, k: nat, q: nat, r: nat)
    requires k > 0 && r < k && n == k * q + r
    ensures n / k == q
  {
    HighAndLow(k, n / k, n % k, q, r);
    assert n == k * (n / k) + n % k;
  }

  lemma LastFourDigitYear(last: int) returns (a: int, b: int)
    ensures YearOfTime(a) == last && YearOfTime(b) == last + 1 && a < b
  {
    StartOfYear(last);
    StartOfYear(last + 1);
    a, b := YearStart(last), YearStart(last + 1);
  }

  /** The text comparison is the time comparison up to a year exactly when the year has four digits. */
  lemma {:induction false} TextOrderUpToYear(maxYear: int)
    ensures
      (forall a, b :: 1 <= YearOfTime(a) <= maxYear && 1 <= YearOfTime(b) <= maxYear ==> OrderedByText(a, b))
      <==> maxYear <= 9999
  {
    if maxYear <= 9999 {
      forall a, b | 1 <= YearOfTime(a) <= maxYear && 1 <= YearOfTime(b) <= maxYear
        ensures OrderedByText(a, b)
      {
        TimestampsAgree(a, b);
      }
    } else {
      var a, b := LastFourDigitYear(9999);
      FiveDigitYear(a, b);
    }
  }

  // ---- The merge comparator ----

  function FirstNonZero(a: int, b: int, c: int): int {
    if a != 0 then a else if b != 0 then b else c
  }

  /** sortFactor times the comparison by timestamp text, then id text, then kind text. */
  function CompareItems(sort: Sort, kind: Side -> string, a: Row, b: Row): int {
    var order :=
      FirstNonZero(
        CompareText(TimestampText(a.time), TimestampText(b.time)), CompareText(UuidText(a.id), UuidText(b.id)),
        CompareText(kind(a.side), kind(b.side)));
    if sort.Newest? then -order else order
  }

  /** A row as the tables can hold it: a 128-bit identity and a four-digit year. */
  predicate Storable(r: Row) {
    r.id < UUIDS && 1 <= YearOfTime(r.time) <= 9999
  }

  lemma CompareAgrees(x: string, m: int, y: string, n: int)
    requires Agree(true, x, m, y, n)
    ensures CompareText(x, y) == if m < n then -1 else if m == n then 0 else 1
  {
    TextOrderIsTotal(x, y);
  }

  lemma TimesCompare(a: int, b: int)
    requires 1 <= YearOfTime(a) <= 9999 && 1 <= YearOfTime(b) <= 9999
    ensures CompareText(TimestampText(a), TimestampText(b)) == if a < b then -1 else if a == b then 0 else 1
  {
    TimestampsAgree(a, b);
    CompareAgrees(TimestampText(a), a, TimestampText(b), b);
  }

  lemma IdsCompare(a: nat, b: nat)
    requires a < UUIDS && b < UUIDS
    ensures CompareText(UuidText(a), UuidText(b)) == if a < b then -1 else if a == b then 0 else 1
  {
    UuidsAgree(a, b);
    CompareAgrees(UuidText(a), a, UuidText(b), b);
  }

  lemma KindsCompare(kind: Side -> string, a: Side, b: Side)
    requires TextLess(kind(Left), kind(Right))
    ensures CompareText(kind(a), kind(b)) == if a == b then 0 else if a.Left? then -1 else 1
  {
    TextOrderIsTotal(kind(Left), kind(Right));
    TextOrderIsTotal(kind(a), kind(a));
  }

  /**
   * The in-memory comparison of two rows has the sign of the SQL row comparison on
   * (time, id, kind), in either direction, and is zero only for a row and itself.
   */
  lemma {:induction false} ComparatorIsRowOrder(sort: Sort, kind: Side -> string, a: Row, b: Row)
    requires Storable(a) && Storable(b) && TextLess(kind(Left), kind(Right))
    ensures CompareItems(sort, kind, a, b) < 0 <==> Before(sort, a, b)
    ensures CompareItems(sort, kind, a, b) == 0 <==> a == b
  {
    TimesCompare(a.time, b.time);
    IdsCompare(a.id, b.id);
    KindsCompare(kind, a.side, b.side);
  }

  /** Sorting by the comparator gives the one sorted reading of the rows. */
  lemma ComparatorSorts(sort: Sort, kind: Side -> string, q: seq<Row>, rows: set<Row>)
    requires Keyed(rows) && Elems(q) == rows && (forall r :: r in rows ==> Storable(r))
    requires TextLess(kind(Left), kind(Right))
    requires forall i, j :: 0 <= i < j < |q| ==> q[i] != q[j] && CompareItems(sort, kind, q[i], q[j]) <= 0
    ensures q == Sorted(sort, rows)
  {
    forall i, j | 0 <= i < j < |q|
      ensures Before(sort, q[i], q[j])
    {
      assert q[i] in rows && q[j] in rows;
      ComparatorIsRowOrder(sort, kind, q[i], q[j]);
    }
    SortedUnique(sort, q, rows);
  }

  /** Both merged lists name their left table by the smaller text. */
  lemma KindNamesOrder()
    ensures TextLess(ReportList.KindName(Left), ReportList.KindName(Right))
    ensures TextLess(MemberHistory.RoleName(Left), MemberHistory.RoleName(Right))
  {
    assert ReportList.KindName(Left)[0] < ReportList.KindName(Right)[0];
    assert MemberHistory.RoleName(Left)[0] < MemberHistory.RoleName(Right)[0];
  }

  /** The moderation context compares newest first by timestamp and id text alone. */
  lemma {:induction false} NewestFirstIsNewer(a: Row, b: Row)
    requires Storable(a) && Storable(b)
    ensures
      FirstNonZero(
        CompareText(TimestampText(b.time), TimestampText(a.time)), CompareText(UuidText(b.id), UuidText(a.id)), 0) < 0
      <==> ModerationContext.Newer(a, b)
  {
    TimesCompare(b.time, a.time);
    IdsCompare(b.id, a.id);
  }

  // ---- ISO texts name one instant ----

  /** The range of ECMA-262 time values. */
  predicate IsTimeValue(ms: int) {
    -8_640_000_000_000_000 <= ms <= 8_640_000_000_000_000
  }

  /** The three forms of an ISO year: four digits, `+` and six, `-` and six. */
  function YearForm(year: int): int {
    if year < 0 then -1 else if year <= 9999 then 0 else 1
  }

  lemma SixDigitYears(y: int, z: int)
    requires -1_000_000 < y < 1_000_000 && -1_000_000 < z < 1_000_000 && YearForm(y) == YearForm(z) != 0
    ensures Agree(false, YearText(Iso, y), y, YearText(Iso, z), z)
  {
    assert Pow(Decimal, 6) == 1_000_000;
    var m, n := if y < 0 then -y else y, if z < 0 then -z else z;
    DigitsAgree(Decimal, m, n, 6);
    var sign := if y < 0 then "-" else "+";
    JoinsEqual(sign, Digits(Decimal, m, 6), sign, Digits(Decimal, n, 6));
  }

  lemma IsoYearsAgree(y: int, z: int)
    requires -1_000_000 < y < 1_000_000 && -1_000_000 < z < 1_000_000 && YearForm(y) == YearForm(z)
    ensures Agree(false, YearText(Iso, y), y, YearText(Iso, z), z)
  {
    if YearForm(y) == 0 {
      assert Pow(Decimal, 4) == 10_000;
      DigitsAgree(Decimal, y, z, 4);
    } else {
      SixDigitYears(y, z);
    }
  }

  function YearOfMs(ms: int): int {
    CivilOf(ms / 1000 / 60 / 60 / 24).year
  }

  lemma TimeValueYears(ms: int)
    requires IsTimeValue(ms)
    ensures -1_000_000 < YearOfMs(ms) < 1_000_000
  {
    var day := ms / 1000 / 60 / 60 / 24;
    var year := CivilOf(day).year;
    DayOfYearFits(CivilOf(day));
    assert -100_000_001 <= day <= 100_000_001;
    if year >= 1970 {
      YearsRise(1970, year);
    } else {
      YearLength(year);
      YearsRise(year + 1, 1970);
    }
  }

  lemma YearLengths(ms: int)
    ensures |IsoText(ms)| == 20 + |YearText(Iso, YearOfMs(ms))|
    ensures |YearText(Iso, YearOfMs(ms))| == if YearForm(YearOfMs(ms)) == 0 then 4 else 7
    ensures IsoText(ms)[0] == YearText(Iso, YearOfMs(ms))[0]
    ensures YearForm(YearOfMs(ms)) != 0 ==> YearText(Iso, YearOfMs(ms))[0] == if YearOfMs(ms) < 0 then '-' else '+'
  {
  }

  lemma MillisAgree(a: int, b: int)
    requires Agree(false, SecondText(Iso, a / 1000), a / 1000, SecondText(Iso, b / 1000), b / 1000)
    ensures Agree(false, IsoText(a), a, IsoText(b), b)
  {
    assert Pow(Decimal, 3) == 1000;
    var r, t := a % 1000, b % 1000;
    DigitsAgree(Decimal, r, t, 3);
    var x := SecondText(Iso, a / 1000) + ("." + Digits(Decimal, r, 3));
    var y := SecondText(Iso, b / 1000) + ("." + Digits(Decimal, t, 3));
    JoinAgrees(
      false, SecondText(Iso, a / 1000), SecondText(Iso, b / 1000), ".", Digits(Decimal, r, 3), Digits(Decimal, t, 3),
      1000, a / 1000, r, b / 1000, t);
    JoinsEqual(x, "Z", y, "Z");
  }

  /** No two instants print the same ISO text, over the whole range of dates. */
  lemma IsoTextInjective(a: int, b: int)
    requires IsTimeValue(a) && IsTimeValue(b) && IsoText(a) == IsoText(b)
    ensures a == b
  {
    TimeValueYears(a);
    TimeValueYears(b);
    YearLengths(a);
    YearLengths(b);
    IsoYearsAgree(YearOfMs(a), YearOfMs(b));
    DatesAgree(false, Iso, a / 1000 / 60 / 60 / 24, b / 1000 / 60 / 60 / 24);
    SecondsAgree(false, Iso, a / 1000, b / 1000);
    MillisAgree(a, b);
  }
}
