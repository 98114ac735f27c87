/** The `--partition` day: the closed-form day count, the calendar it must agree with, and the half-open day
    windows that tile time. The date form is `full-date` of section 5.6 of RFC 3339. */
module Calendar {
  import opened Decimal
  import opened Text

  /** Rust's integer division truncates toward zero. */
  function TruncDiv(a: int, b: int): int
    requires b > 0
  {
    if a >= 0 then a / b else -((-a) / b)
  }

  predicate IsLeap(year: int) {
    (year % 4 == 0 && year % 100 != 0) || year % 400 == 0
  }

  function MonthDays(year: int, month: int): nat {
    if month in {1, 3, 5, 7, 8, 10, 12} then 31
    else if month in {4, 6, 9, 11} then 30
    else if month == 2 then if IsLeap(year) then 29 else 28
    else 0
  }

  datatype Date = Date(year: int, month: int, day: int)

  predicate Valid(d: Date) {
    1 <= d.month <= 12 && 1 <= d.day <= MonthDays(d.year, d.month)
  }

  /** Days from 1970-01-01, the closed form. */
  function CivilDays(d: Date): int {
    var year := if d.month <= 2 then d.year - 1 else d.year;
    var era := TruncDiv(if year >= 0 then year else year - 399, 400);
    var yearOfEra := year - era * 400;
    var dayOfYear := (153 * (if d.month > 2 then d.month - 3 else d.month + 9) + 2) / 5 + d.day - 1;
    var dayOfEra := yearOfEra * 365 + yearOfEra / 4 - yearOfEra / 100 + dayOfYear;
    era * 146097 + dayOfEra - 719468
  }

  /** The next calendar day. */
  function Next(d: Date): Date {
    if d.day < MonthDays(d.year, d.month) then Date(d.year, d.month, d.day + 1)
    else if d.month < 12 then Date(d.year, d.month + 1, 1)
    else Date(d.year + 1, 1, 1)
  }

  predicate Before(a: Date, b: Date) {
    a.year < b.year || (a.year == b.year && (a.month < b.month || (a.month == b.month && a.day < b.day)))
  }

  // ----- the closed form, by years that start in March -----

  /** The year a date falls in when years start on March 1. */
  function ShiftedYear(d: Date): int {
    if d.month <= 2 then d.year - 1 else d.year
  }

  /** Days from the shifted year's March 1 to the date. */
  function ShiftedDay(d: Date): int {
    (153 * (if d.month > 2 then d.month - 3 else d.month + 9) + 2) / 5 + d.day - 1
  }

  /** The day count of the shifted year's March 1: 365 a year and one more every leap year. */
  function YearStart(year: int): int {
    365 * year + year / 4 - year / 100 + year / 400 - 719468
  }

  lemma {:induction false} EraForm(year: int)
    ensures
      var era := TruncDiv(if year >= 0 then year else year - 399, 400);
      era == year / 400 && 0 <= year - era * 400 < 400
      && era * 146097 + (year - era * 400) * 365 + (year - era * 400) / 4 - (year - era * 400) / 100
         == 365 * year + year / 4 - year / 100 + year / 400
  {
    var era, yoe := year / 400, year % 400;
    assert year == 400 * era + yoe;
    assert year / 4 == 100 * era + yoe / 4;
    assert year / 100 == 4 * era + yoe / 100;
  }

  lemma {:induction false} CivilDaysForm(d: Date)
    ensures CivilDays(d) == YearStart(ShiftedYear(d)) + ShiftedDay(d)
  {
    EraForm(ShiftedYear(d));
  }

  lemma {:induction false} YearLength(year: int)
    ensures YearStart(year + 1) - YearStart(year) == if IsLeap(year + 1) then 366 else 365
  {
    assert (year + 1) / 4 - year / 4 == if (year + 1) % 4 == 0 then 1 else 0;
    assert (year + 1) / 100 - year / 100 == if (year + 1) % 100 == 0 then 1 else 0;
    assert (year + 1) / 400 - year / 400 == if (year + 1) % 400 == 0 then 1 else 0;
  }

  /** A month's place in the shifted year, March first. */
  function ShiftedMonth(month: int): int {
    if month > 2 then month - 3 else month + 9
  }

  function MonthStart(shifted: int): int {
    (153 * shifted + 2) / 5
  }

  lemma {:induction false} MonthLength(year: int, month: int)
    requires 1 <= month <= 12 && month != 2
    ensures MonthStart(ShiftedMonth(month) + 1) - MonthStart(ShiftedMonth(month)) == MonthDays(year, month)
  {
  }

  lemma {:induction false} NextForm(d: Date)
    requires Valid(d)
    ensures YearStart(ShiftedYear(Next(d))) + ShiftedDay(Next(d)) == YearStart(ShiftedYear(d)) + ShiftedDay(d) + 1
  {
    var e := Next(d);
    assert ShiftedDay(d) == MonthStart(ShiftedMonth(d.month)) + d.day - 1;
    assert ShiftedDay(e) == MonthStart(ShiftedMonth(e.month)) + e.day - 1;
    if d.day < MonthDays(d.year, d.month) {
      assert ShiftedDay(e) == ShiftedDay(d) + 1 && ShiftedYear(e) == ShiftedYear(d);
    } else if d.month == 2 {
      YearLength(d.year - 1);
      assert ShiftedYear(e) == d.year && ShiftedYear(d) == d.year - 1 && ShiftedDay(e) == 0;
    } else {
      MonthLength(d.year, d.month);
      assert ShiftedYear(e) == ShiftedYear(d) && ShiftedMonth(e.month) == ShiftedMonth(d.month) + 1;
    }
  }

  /** Stepping to the next valid date adds exactly one day, in every year, negative ones included. */
  lemma {:induction false} NextIsOneMore(d: Date)
    requires Valid(d)
    ensures Valid(Next(d)) && Before(d, Next(d))
    ensures CivilDays(Next(d)) == CivilDays(d) + 1
  {
    NextForm(d);
    CivilDaysForm(d);
    CivilDaysForm(Next(d));
  }

  lemma {:induction false} EpochIsZero()
    ensures CivilDays(Date(1970, 1, 1)) == 0
  {
    CivilDaysForm(Date(1970, 1, 1));
  }

  lemma {:induction false} ShiftedDayBound(d: Date)
    requires Valid(d)
    ensures ShiftedDay(d) == MonthStart(ShiftedMonth(d.month)) + d.day - 1
    ensures d.month != 2 ==> ShiftedDay(d) < MonthStart(ShiftedMonth(d.month) + 1)
    ensures 0 <= ShiftedDay(d) < YearStart(ShiftedYear(d) + 1) - YearStart(ShiftedYear(d))
  {
    YearLength(ShiftedYear(d));
    if d.month != 2 {
      MonthLength(d.year, d.month);
    }
  }

  lemma {:induction false} YearStartGrows(a: int, b: int)
    requires a < b
    ensures YearStart(a + 1) <= YearStart(b)
    decreases b - a
  {
    if a + 1 < b {
      YearStartGrows(a + 1, b);
      YearLength(a + 1);
    }
  }

  lemma {:induction false} ShiftedDayIncrease(a: Date, b: Date)
    requires Valid(a) && Valid(b) && ShiftedYear(a) == ShiftedYear(b)
    requires ShiftedMonth(a.month) < ShiftedMonth(b.month)
       || (ShiftedMonth(a.month) == ShiftedMonth(b.month) && a.day < b.day)
    ensures ShiftedDay(a) < ShiftedDay(b)
  {
    ShiftedDayBound(a);
    ShiftedDayBound(b);
    if ShiftedMonth(a.month) < ShiftedMonth(b.month) {
      assert MonthStart(ShiftedMonth(a.month) + 1) <= MonthStart(ShiftedMonth(b.month));
    }
  }

  /** The count is strictly increasing in (year, month, day). */
  lemma {:induction false} CivilDaysIncrease(a: Date, b: Date)
    requires Valid(a) && Valid(b) && Before(a, b)
    ensures CivilDays(a) < CivilDays(b)
  {
    CivilDaysForm(a);
    CivilDaysForm(b);
    if ShiftedYear(a) < ShiftedYear(b) {
      ShiftedDayBound(a);
      ShiftedDayBound(b);
      YearStartGrows(ShiftedYear(a), ShiftedYear(b));
    } else {
      ShiftedDayIncrease(a, b);
    }
  }

  lemma {:induction false} CivilDaysInjective(a: Date, b: Date)
    requires Valid(a) && Valid(b) && CivilDays(a) == CivilDays(b)
    ensures a == b
  {
    if Before(a, b) {
      CivilDaysIncrease(a, b);
    } else if Before(b, a) {
      CivilDaysIncrease(b, a);
    }
  }

  // ----- the inverse -----

  /** The era a shifted day count falls in. */
  function EraOf(z: int): int {
    TruncDiv(if z >= 0 then z else z - 146096, 146097)
  }

  function YearOfEraOf(dayOfEra: int): int {
    TruncDiv(dayOfEra - TruncDiv(dayOfEra, 1460) + TruncDiv(dayOfEra, 36524) - TruncDiv(dayOfEra, 146096), 365)
  }

  function DateInYear(shiftedYear: int, dayOfYear: int): Date {
    var monthIndex := TruncDiv(5 * dayOfYear + 2, 153);
    var day := dayOfYear - TruncDiv(153 * monthIndex + 2, 5) + 1;
    var month := if monthIndex < 10 then monthIndex + 3 else monthIndex - 9;
    Date(if month <= 2 then shiftedYear + 1 else shiftedYear, month, day)
  }

  /** The repository's own inverse: the date of a day count. */
  function CivilDate(days: int): Date {
    var z := days + 719468;
    var era := EraOf(z);
    var dayOfEra := z - era * 146097;
    var y := YearOfEraOf(dayOfEra);
    DateInYear(y + era * 400, dayOfEra - (365 * y + TruncDiv(y, 4) - TruncDiv(y, 100)))
  }

  /** The day of an era on which its year `y` starts. */
  function EraYearStart(y: int): int {
    365 * y + y / 4 - y / 100
  }

  lemma {:induction false} YearParts(y: int) returns (c: int, q: int, r: int)
    requires 0 <= y < 400
    ensures y == 100 * c + 4 * q + r && 0 <= c < 4 && 0 <= q < 25 && 0 <= r < 4
    ensures r == y % 4 && y / 4 == 25 * c + q && y / 100 == c
    ensures q == 24 && r == 3 <==> y % 100 == 99
  {
    c, q, r := y / 100, (y % 100) / 4, y % 4;
  }

  lemma {:induction false} CenturyTerm(c: int, q: int, r: int, doy: int)
    requires 0 <= c < 4 && 0 <= q < 25 && 0 <= r < 4 && 0 <= doy <= 365
    requires doy == 365 ==> r == 3 && (q != 24 || c == 3)
    ensures
      var doe := 36524 * c + 1461 * q + 365 * r + doy;
      0 <= doe < 146097 && doe / 36524 - doe / 146096 == c
  {
    var doe := 36524 * c + 1461 * q + 365 * r + doy;
    if doy == 365 && q == 24 {
      assert doe == 146096;
    } else {
      assert 1461 * q + 365 * r + doy < 36524;
    }
  }

  lemma {:induction false} LeapTerm(c: int, q: int, r: int, doy: int)
    requires 0 <= c < 4 && 0 <= q < 25 && 0 <= r < 4 && 0 <= doy <= 365
    ensures
      var doe, extra := 36524 * c + 1461 * q + 365 * r + doy, 24 * c + q + 365 * r + doy;
      doe / 1460 == 25 * c + q + if extra >= 1460 then 1 else 0
  {
    var doe, extra := 36524 * c + 1461 * q + 365 * r + doy, 24 * c + q + 365 * r + doy;
    assert doe == 1460 * (25 * c + q) + extra;
    assert 0 <= extra < 2920;
  }

  /** The year-of-era formula is exact on every day of the year. */
  lemma {:induction false} YearOfEra(y: int, doy: int)
    requires 0 <= y < 400 && 0 <= doy <= 365
    requires doy == 365 ==> y % 4 == 3 && (y % 100 != 99 || y == 399)
    ensures
      var doe := EraYearStart(y) + doy;
      0 <= doe < 146097 && YearOfEraOf(doe) == y
  {
    var c, q, r := YearParts(y);
    var doe := EraYearStart(y) + doy;
    assert doe == 36524 * c + 1461 * q + 365 * r + doy;
    CenturyTerm(c, q, r, doy);
    LeapTerm(c, q, r, doy);
    var n := doe - doe / 1460 + c;
    assert 365 * y <= n < 365 * y + 365;
  }

  lemma {:induction false} EraSplit(year: int)
    ensures YearStart(year) + 719468 == 146097 * (year / 400) + EraYearStart(year % 400)
  {
    EraForm(year);
    assert year - (year / 400) * 400 == year % 400;
  }

  lemma {:induction false} RemainderOf4(k: int, r: int)
    ensures (400 * k + r) % 4 == r % 4
  {
    assert 400 * k + r == 4 * (100 * k + r / 4) + r % 4;
  }

  lemma {:induction false} RemainderOf100(k: int, r: int)
    ensures (400 * k + r) % 100 == r % 100
  {
    assert 400 * k + r == 100 * (4 * k + r / 100) + r % 100;
  }

  lemma {:induction false} RemainderOf400(k: int, r: int)
    ensures (400 * k + r) % 400 == r % 400
  {
    assert 400 * k + r == 400 * (k + r / 400) + r % 400;
  }

  /** Within an era of 400 years, the year before a leap year. */
  lemma {:induction false} BeforeLeap(yoe: int)
    requires 0 <= yoe < 400 && (yoe + 1) % 4 == 0 && ((yoe + 1) % 100 != 0 || (yoe + 1) % 400 == 0)
    ensures yoe % 4 == 3 && (yoe % 100 != 99 || yoe == 399)
  {
  }

  lemma {:induction false} LeapInEra(year: int)
    requires IsLeap(year + 1)
    ensures var yoe := year % 400; yoe % 4 == 3 && (yoe % 100 != 99 || yoe == 399)
  {
    var k, yoe := year / 400, year % 400;
    assert year + 1 == 400 * k + (yoe + 1);
    RemainderOf4(k, yoe + 1);
    RemainderOf100(k, yoe + 1);
    RemainderOf400(k, yoe + 1);
    BeforeLeap(yoe);
  }

  lemma {:induction false} MonthIndex(d: Date)
    requires Valid(d)
    ensures (5 * ShiftedDay(d) + 2) / 153 == ShiftedMonth(d.month)
  {
    ShiftedDayBound(d);
    var m := ShiftedMonth(d.month);
    assert 0 <= m <= 11;
    if d.month == 2 {
      assert m == 11;
    } else {
      assert 153 * m <= 5 * ShiftedDay(d) + 2 < 153 * (m + 1);
    }
  }

  lemma {:induction false} CivilDateParts(n: int, era: int, yoe: int, doy: int)
    requires 0 <= yoe < 400 && 0 <= doy <= 365
    requires doy == 365 ==> yoe % 4 == 3 && (yoe % 100 != 99 || yoe == 399)
    requires n + 719468 == 146097 * era + EraYearStart(yoe) + doy
    ensures CivilDate(n) == DateInYear(yoe + era * 400, doy)
  {
    var z, doe := n + 719468, EraYearStart(yoe) + doy;
    YearOfEra(yoe, doy);
    EraOfDays(z, era, doe);
    assert z - EraOf(z) * 146097 == doe;
    assert doe - (365 * yoe + TruncDiv(yoe, 4) - TruncDiv(yoe, 100)) == doy;
  }

  lemma {:induction false} DateInItsYear(d: Date)
    requires Valid(d)
    ensures DateInYear(ShiftedYear(d), ShiftedDay(d)) == d
  {
    ShiftedDayBound(d);
    MonthIndex(d);
  }

  /** The repository's inverse undoes the closed form on every valid date. */
  lemma {:induction false} DateOfDays(d: Date)
    requires Valid(d)
    ensures CivilDate(CivilDays(d)) == d
  {
    var year, sd := ShiftedYear(d), ShiftedDay(d);
    CivilDaysForm(d);
    ShiftedDayBound(d);
    YearLength(year);
    EraSplit(year);
    if sd == 365 {
      LeapInEra(year);
    }
    var era, yoe := year / 400, year % 400;
    assert year == yoe + era * 400;
    CivilDateParts(CivilDays(d), era, yoe, sd);
    DateInItsYear(d);
  }

  lemma {:induction false} EraOfDays(z: int, era: int, doe: int)
    requires z == 146097 * era + doe && 0 <= doe < 146097
    ensures EraOf(z) == era
  {
  }

  lemma {:induction false} Step(d: Date, n: nat) returns (e: Date)
    requires Valid(d)
    ensures Valid(e) && CivilDays(e) == CivilDays(d) + n
  {
    e := d;
    for k := 0 to n
      invariant Valid(e) && CivilDays(e) == CivilDays(d) + k
    {
      NextIsOneMore(e);
      e := Next(e);
    }
  }

  lemma {:induction false} CenturiesBack(k: nat)
    ensures Valid(Date(1970 - 400 * k, 1, 1)) && CivilDays(Date(1970 - 400 * k, 1, 1)) == -146097 * k
  {
    CivilDaysForm(Date(1970 - 400 * k, 1, 1));
    var y := 1969 - 400 * k;
    assert y / 4 == 492 - 100 * k && y / 100 == 19 - 4 * k && y / 400 == 4 - k;
  }

  lemma {:induction false} DateOnDay(n: int) returns (d: Date)
    ensures Valid(d) && CivilDays(d) == n
  {
    var k: nat := if n >= 0 then 0 else -n;
    CenturiesBack(k);
    d := Step(Date(1970 - 400 * k, 1, 1), n + 146097 * k);
  }

  /** Every day count is a valid date's, and the inverse finds it. */
  lemma {:induction false} DaysOfDate(n: int)
    ensures Valid(CivilDate(n)) && CivilDays(CivilDate(n)) == n
  {
    var d := DateOnDay(n);
    DateOfDays(d);
  }

  // ----- the partition flag -----

  const DAY: nat := 86400000

  datatype Parsed = Day(millis: nat) | PreEpoch | Invalid

  /** `parse::<u32>` on two bytes: digits, with an optional leading `+`. */
  function ParseTwo(s: Text): Option<nat>
    requires |s| == 2
  {
    var digits := if s[0] == '+' then s[1..] else s;
    if Digits(digits) then Some(Value(digits)) else None
  }

  function ParseDay(s: Text): Parsed {
    var parts := Split(s, '-');
    if |parts| != 3 || |parts[0]| != 4 || |parts[1]| != 2 || |parts[2]| != 2 || !Digits(parts[0]) then Invalid
    else if ParseTwo(parts[1]).None? || ParseTwo(parts[2]).None? then Invalid
    else
      var d := Date(Value(parts[0]), ParseTwo(parts[1]).value, ParseTwo(parts[2]).value);
      if d.month == 0 || d.month > 12 || d.day == 0 || d.day > MonthDays(d.year, d.month) then Invalid
      else if CivilDays(d) < 0 then PreEpoch
      else Day(CivilDays(d) * DAY)
  }

  function Two(n: int): Text
    requires 0 <= n < 100
  {
    [DigitChar(n / 10), DigitChar(n % 10)]
  }

  /** `YYYY-MM-DD`. */
  function Format(d: Date): Text
    requires Valid(d) && 0 <= d.year < 10000
  {
    Join([Two(d.year / 100) + Two(d.year % 100), Two(d.month), Two(d.day)], '-')
  }

  lemma {:induction false} TwoValue(n: int)
    requires 0 <= n < 100
    ensures Digits(Two(n)) && Value(Two(n)) == n && ParseTwo(Two(n)) == Some(n) && '-' !in Two(n)
  {
    var high := [DigitChar(n / 10)];
    assert Two(n)[..1] == high && high[..0] == [];
    assert Value(high) == n / 10;
  }

  lemma {:induction false} FourValue(n: int)
    requires 0 <= n < 10000
    ensures Digits(Two(n / 100) + Two(n % 100)) && Value(Two(n / 100) + Two(n % 100)) == n
    ensures '-' !in Two(n / 100) + Two(n % 100)
  {
    TwoValue(n / 100);
    TwoValue(n % 100);
    var high, low := Two(n / 100), Two(n % 100);
    assert (high + low)[..3] == high + [low[0]];
    assert (high + [low[0]])[..2] == high;
    assert low[..1] == [low[0]] && [low[0]][..0] == [];
  }

  /** The flag reads back every date it is given in the ISO form, and rejects exactly those before the epoch. */
  lemma {:induction false} ParseFormat(d: Date)
    requires Valid(d) && 0 <= d.year < 10000
    ensures ParseDay(Format(d)) == if CivilDays(d) < 0 then PreEpoch else Day(CivilDays(d) * DAY)
  {
    FourValue(d.year);
    TwoValue(d.month);
    TwoValue(d.day);
    SplitJoin([Two(d.year / 100) + Two(d.year % 100), Two(d.month), Two(d.day)], '-');
  }

  // ----- exactly what the flag accepts -----

  function DigitOf(c: Byte): nat
    requires Digit(c)
  {
    c as int - 48
  }

  /** Two digits, or a plus sign and one digit. */
  function TwoWritten(a: Byte, b: Byte): Option<nat> {
    if !Digit(b) then None
    else if Digit(a) then Some(10 * DigitOf(a) + DigitOf(b))
    else if a == '+' then Some(DigitOf(b))
    else None
  }

  /** The date ten characters write, character by character. */
  function Written(s: Text): Option<Date> {
    if |s| != 10 || s[4] != '-' || s[7] != '-' || !Digit(s[0]) || !Digit(s[1]) || !Digit(s[2]) || !Digit(s[3]) then None
    else if TwoWritten(s[5], s[6]).None? || TwoWritten(s[8], s[9]).None? then None
    else
      Some(Date(
        1000 * DigitOf(s[0]) + 100 * DigitOf(s[1]) + 10 * DigitOf(s[2]) + DigitOf(s[3]),
        TwoWritten(s[5], s[6]).value, TwoWritten(s[8], s[9]).value))
  }

  lemma {:induction false} OneIsWritten(c: Byte)
    ensures Digits([c]) <==> Digit(c)
    ensures Digit(c) ==> Value([c]) == DigitOf(c)
  {
    DigitsSnoc([], c);
    EmptyUnit([c]);
  }

  lemma {:induction false} TwoIsWritten(a: Byte, b: Byte)
    ensures ParseTwo([a, b]) == TwoWritten(a, b)
  {
    OneIsWritten(a);
    OneIsWritten(b);
    DigitsSnoc([a], b);
    assert [a] + [b] == [a, b] && [a, b][1..] == [b];
  }

  lemma {:induction false} FourAreWritten(a: Byte, b: Byte, c: Byte, d: Byte)
    ensures Digits([a, b, c, d]) <==> Digit(a) && Digit(b) && Digit(c) && Digit(d)
    ensures Digits([a, b, c, d]) ==>
      Value([a, b, c, d]) == 1000 * DigitOf(a) + 100 * DigitOf(b) + 10 * DigitOf(c) + DigitOf(d)
  {
    OneIsWritten(a);
    DigitsSnoc([a], b);
    DigitsSnoc([a] + [b], c);
    DigitsSnoc([a] + [b] + [c], d);
    assert [a] + [b] + [c] + [d] == [a, b, c, d];
  }

  /** A day's parts, once the three pieces are told apart. */
  function OfParts(y: Text, m: Text, d: Text): Parsed
    requires |y| == 4 && |m| == |d| == 2
  {
    if !Digits(y) || ParseTwo(m).None? || ParseTwo(d).None? then Invalid
    else
      var date := Date(Value(y), ParseTwo(m).value, ParseTwo(d).value);
      if !Valid(date) then Invalid
      else if CivilDays(date) < 0 then PreEpoch
      else Day(CivilDays(date) * 86400000)
  }

  lemma {:induction false} ThreeParts(y: Text, m: Text, d: Text)
    requires |y| == 4 && |m| == |d| == 2 && '-' !in y && '-' !in m && '-' !in d
    ensures ParseDay(Join([y, m, d], '-')) == OfParts(y, m, d)
  {
    SplitJoin([y, m, d], '-');
  }

  lemma {:induction false} JoinThree(y: Text, m: Text, d: Text)
    ensures Join([y, m, d], '-') == y + ['-'] + (m + ['-'] + d)
  {
    assert [y, m, d][1..] == [m, d] && [m, d][1..] == [d];
    assert Join([d], '-') == d;
    assert Join([m, d], '-') == m + ['-'] + d;
  }

  /** What does not split into three parts of four, two and two characters writes no date. */
  lemma {:induction false} PartsOfWritten(s: Text)
    requires Written(s).Some?
    ensures ParseDay(s) == OfParts(s[0..4], s[5..7], s[8..10])
  {
    var y, m, d := s[0..4], s[5..7], s[8..10];
    JoinThree(y, m, d);
    assert s == y + ['-'] + (m + ['-'] + d);
    ThreeParts(y, m, d);
  }

  lemma {:induction false} WrittenParts(s: Text)
    requires ParseDay(s) != Invalid
    ensures Written(s).Some?
  {
    var parts := Split(s, '-');
    JoinSplit(s, '-');
    var y, m, d := parts[0], parts[1], parts[2];
    assert parts == [y, m, d];
    JoinThree(y, m, d);
    FourAreWritten(y[0], y[1], y[2], y[3]);
    assert y == [y[0], y[1], y[2], y[3]] && m == [m[0], m[1]] && d == [d[0], d[1]];
    TwoIsWritten(m[0], m[1]);
    TwoIsWritten(d[0], d[1]);
  }

  lemma {:induction false} EpochSplits(d: Date)
    requires Valid(d)
    ensures CivilDays(d) < 0 <==> Before(d, Date(1970, 1, 1))
  {
    EpochIsZero();
    if Before(d, Date(1970, 1, 1)) {
      CivilDaysIncrease(d, Date(1970, 1, 1));
    } else if Before(Date(1970, 1, 1), d) {
      CivilDaysIncrease(Date(1970, 1, 1), d);
    }
  }

  lemma {:induction false} DateOfParts(s: Text)
    requires Written(s).Some?
    ensures Digits(s[0..4]) && ParseTwo(s[5..7]).Some? && ParseTwo(s[8..10]).Some?
    ensures Written(s).value == Date(Value(s[0..4]), ParseTwo(s[5..7]).value, ParseTwo(s[8..10]).value)
  {
    FourAreWritten(s[0], s[1], s[2], s[3]);
    TwoIsWritten(s[5], s[6]);
    TwoIsWritten(s[8], s[9]);
    assert s[0..4] == [s[0], s[1], s[2], s[3]] && s[5..7] == [s[5], s[6]] && s[8..10] == [s[8], s[9]];
  }

  /** The flag accepts exactly the ten characters that write a valid date of 1970 or later, as the first millisecond
      of that very date; a valid date before is told apart, and everything else is invalid. */
  lemma {:induction false} ParseDayIff(s: Text)
    ensures ParseDay(s) ==
            if Written(s).None? || !Valid(Written(s).value) then Invalid
            else if Before(Written(s).value, Date(1970, 1, 1)) then PreEpoch
            else Day(CivilDays(Written(s).value) * 86400000)
  {
    if Written(s).Some? {
      PartsOfWritten(s);
      DateOfParts(s);
      if Valid(Written(s).value) {
        EpochSplits(Written(s).value);
      }
    } else if ParseDay(s) != Invalid {
      WrittenParts(s);
    }
  }

  lemma {:induction false} EndOfTime()
    ensures CivilDays(Date(10000, 1, 1)) == 2932897
  {
    var d := Date(10000, 1, 1);
    CivilDaysForm(d);
    assert ShiftedYear(d) == 9999 && ShiftedDay(d) == 306;
    assert YearStart(9999) == 365 * 9999 + 2499 - 99 + 24 - 719468;
  }

  /** Whatever the flag accepts is the first millisecond of a valid date's day, and its window fits in 64 bits. */
  lemma {:induction false} ParsedDayIsADate(s: Text) returns (d: Date)
    requires ParseDay(s).Day?
    ensures Valid(d) && 0 <= d.year < 10000 && ParseDay(s).millis == CivilDays(d) * DAY
    ensures ParseDay(s).millis + DAY <= 253402300800000 < 0x1_0000_0000_0000_0000
  {
    var parts := Split(s, '-');
    d := Date(Value(parts[0]), ParseTwo(parts[1]).value, ParseTwo(parts[2]).value);
    var y := parts[0];
    assert y[..3][..2][..1][..0] == [];
    assert Value(y) < 10000 by {
      assert Value(y[..3][..2][..1]) < 10;
      assert Value(y[..3][..2]) < 100;
      assert Value(y[..3]) < 1000;
    }
    EndOfTime();
    CivilDaysIncrease(d, Date(10000, 1, 1));
  }

  // ----- day windows -----

  /** Half-open: the first time is in, the last is out. */
  datatype TimeWindow = TimeWindow(firstTime: nat, lastTime: nat)

  function DayWindow(firstTime: nat): TimeWindow {
    TimeWindow(firstTime, firstTime + DAY)
  }

  predicate Contains(w: TimeWindow, time: Option<nat>) {
    time.Some? && w.firstTime <= time.value < w.lastTime
  }

  /** The window `--partition` names for the date `d`. */
  predicate Names(d: Date, w: TimeWindow) {
    Valid(d) && 0 <= d.year < 10000 && ParseDay(Format(d)).Day? && w == DayWindow(ParseDay(Format(d)).millis)
  }

  /** Consecutive days' windows abut. */
  lemma {:induction false} WindowsAbut(d: Date, w: TimeWindow, next: TimeWindow)
    requires Names(d, w) && Names(Next(d), next)
    ensures w.lastTime == next.firstTime
  {
    ParseFormat(d);
    ParseFormat(Next(d));
    NextIsOneMore(d);
  }

  /** The date of a day from the epoch on. */
  lemma {:induction false} DayIsNamed(k: nat)
    requires k < 2932897
    ensures Names(CivilDate(k), DayWindow(k * DAY))
  {
    DaysOfDate(k);
    var d := CivilDate(k);
    EpochIsZero();
    EndOfTime();
    if d.year < 0 {
      CivilDaysIncrease(d, Date(1970, 1, 1));
    } else if d.year >= 10000 {
      if d != Date(10000, 1, 1) {
        CivilDaysIncrease(Date(10000, 1, 1), d);
      }
    }
    ParseFormat(d);
  }

  /** Every millisecond from the epoch through 9999-12-31 lies in the window of exactly one date. */
  lemma {:induction false} WindowsTile(time: nat)
    requires time < 253402300800000
    ensures exists d, w :: Names(d, w) && Contains(w, Some(time))
    ensures forall d, w, e, v ::
      Names(d, w) && Contains(w, Some(time)) && Names(e, v) && Contains(v, Some(time)) ==> d == e && w == v
  {
    var k := time / DAY;
    DayIsNamed(k);
    assert Contains(DayWindow(k * DAY), Some(time));
    forall d, w, e, v | Names(d, w) && Contains(w, Some(time)) && Names(e, v) && Contains(v, Some(time))
      ensures d == e && w == v
    {
      ParseFormat(d);
      ParseFormat(e);
      SameDay(CivilDays(d), CivilDays(e), time);
      CivilDaysInjective(d, e);
    }
  }

  lemma {:induction false} SameDay(a: int, b: int, time: nat)
    requires a * DAY <= time < a * DAY + DAY && b * DAY <= time < b * DAY + DAY
    ensures a == b
  {
  }

  /** A time lies in the window of a date exactly when the date is that of its day, by the independent inverse. */
  lemma {:induction false} WindowHolds(d: Date, w: TimeWindow, time: Option<nat>)
    requires Names(d, w)
    ensures Contains(w, time) <==> time.Some? && CivilDate(time.value / 86400000) == d
    ensures w.lastTime - w.firstTime == 24 * 60 * 60 * 1000
  {
    ParseFormat(d);
    if time.Some? {
      var k := time.value / 86400000;
      if Contains(w, time) {
        SameDay(CivilDays(d), k, time.value);
        DateOfDays(d);
      } else if CivilDate(k) == d {
        DaysOfDate(k);
      }
    }
  }

  // ----- listing by day -----

  datatype File = File(path: Text, modificationTime: Option<nat>)

  /** The files a listing with a window keeps, in log order. */
  function Listed(files: seq<File>, w: TimeWindow): seq<File> {
    if files == [] then []
    else
      var rest := Listed(files[1..], w);
      if Contains(w, files[0].modificationTime) then [files[0]] + rest else rest
  }

  /** The listings of the first `n` days from the epoch, one after the other. */
  ghost function ListedDays(files: seq<File>, n: nat): seq<File> {
    if n == 0 then [] else ListedDays(files, n - 1) + Listed(files, DayWindow((n - 1) * DAY))
  }

  lemma {:induction false} ListedCount(files: seq<File>, w: TimeWindow, f: File)
    ensures multiset(Listed(files, w))[f] == if Contains(w, f.modificationTime) then multiset(files)[f] else 0
  {
    if files != [] {
      ListedCount(files[1..], w, f);
      assert files == [files[0]] + files[1..];
    }
  }

  lemma {:induction false} ListedDaysCount(files: seq<File>, n: nat, f: File)
    ensures multiset(ListedDays(files, n))[f] ==
            if Contains(TimeWindow(0, n * DAY), f.modificationTime) then multiset(files)[f] else 0
  {
    if n > 0 {
      ListedDaysCount(files, n - 1, f);
      ListedCount(files, DayWindow((n - 1) * DAY), f);
    }
  }

  /** Listing a file set by each partition day from the epoch through 9999-12-31 returns every file dated in that
      range exactly as often as the set holds it, and no other. */
  lemma {:induction false} PartitionsListEveryFileOnce(files: seq<File>)
    ensures multiset(ListedDays(files, 2932897)) == multiset(Listed(files, TimeWindow(0, 253402300800000)))
    ensures forall k: nat :: k < 2932897 ==> Names(CivilDate(k), DayWindow(k * DAY))
  {
    forall f ensures multiset(ListedDays(files, 2932897))[f]
                  == multiset(Listed(files, TimeWindow(0, 253402300800000)))[f] {
      ListedDaysCount(files, 2932897, f);
      ListedCount(files, TimeWindow(0, 253402300800000), f);
    }
    forall k: nat | k < 2932897 ensures Names(CivilDate(k), DayWindow(k * DAY)) {
      DayIsNamed(k);
    }
  }
}
