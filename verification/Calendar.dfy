/** The day-to-date conversion of cli/src/receipts.rs against the proleptic Gregorian calendar. */
module Calendar {

  datatype Date = Date(y: int, m: int, d: int)

  // ----- the calendar, as RFC 3339 section 5.7 and appendix C give it -----

  predicate Leap(y: int) {
    y % 4 == 0 && (y % 100 != 0 || y % 400 == 0)
  }

  function DaysInMonth(y: int, m: int): int {
    if m == 2 then (if Leap(y) then 29 else 28)
    else if m == 4 || m == 6 || m == 9 || m == 11 then 30
    else 31
  }

  predicate ValidDate(date: Date) {
    1 <= date.m <= 12 && 1 <= date.d <= DaysInMonth(date.y, date.m)
  }

  /** The day after a date. */
  function NextDay(date: Date): Date {
    if date.d < DaysInMonth(date.y, date.m) then Date(date.y, date.m, date.d + 1)
    else if date.m < 12 then Date(date.y, date.m + 1, 1)
    else Date(date.y + 1, 1, 1)
  }

  predicate Earlier(a: Date, b: Date) {
    a.y < b.y || (a.y == b.y && (a.m < b.m || (a.m == b.m && a.d < b.d)))
  }

  // ----- the conversion -----

  /** Division of machine integers, which truncates toward zero. */
  function TruncDiv(a: int, b: int): int
    requires b > 0
  {
    if a >= 0 then a / b else -((-a) / b)
  }

  /** The era of a shifted day count: 400-year periods from 1 March of year 0. */
  function EraOf(z: int): int {
    if z >= 0 then TruncDiv(z, 146097) else TruncDiv(z - 146096, 146097)
  }

  /** The day of the era. */
  function DayOfEra(z: int): (doe: nat)
    ensures doe < 146097 && z == EraOf(z) * 146097 + doe
  {
    z - EraOf(z) * 146097
  }

  /** Year of the era, from the day of the era; the operands of each subtraction are unsigned. */
  function YearOfEra(doe: nat): (yoe: nat)
    requires doe < 146097
  {
    var a: nat := doe - doe / 1460;
    var b: nat := a + doe / 36524 - doe / 146096;
    b / 365
  }

  /** Days of the era before 1 March of a year of the era. */
  function EraDays(yoe: nat): int {
    365 * yoe + yoe / 4 - yoe / 100
  }

  /** A day of the era as century, four-year cycle, year and day: `c`, `g`, `j`, `r`. */
  ghost predicate Split(doe: nat, c: nat, g: nat, j: nat, r: nat) {
    && doe == 36524 * c + 1461 * g + 365 * j + r
    && c <= 3 && g <= 24 && j <= 3 && r <= 365
    && (r == 365 ==> j == 3 && (g < 24 || c == 3))
  }

  lemma SplitExists(doe: nat) returns (c: nat, g: nat, j: nat, r: nat)
    requires doe < 146097
    ensures Split(doe, c, g, j, r)
  {
    c := if doe / 36524 < 3 then doe / 36524 else 3;
    var inCentury: nat := doe - 36524 * c;
    g := if inCentury / 1461 < 24 then inCentury / 1461 else 24;
    var inCycle: nat := inCentury - 1461 * g;
    j := if inCycle / 365 < 3 then inCycle / 365 else 3;
    r := inCycle - 365 * j;
  }

  lemma SmallMultiple(k: int, b: int)
    requires b > 0 && -b < k * b < b
    ensures k == 0
  {
  }

  /** A quotient is known once it is bracketed. */
  lemma Quotient(x: int, b: int, q: int)
    requires b > 0 && q * b <= x < q * b + b
    ensures x / b == q
  {
    var e := x / b;
    assert x == b * e + x % b;
    assert (e - q) * b == e * b - q * b;
    SmallMultiple(e - q, b);
  }

  /** How a quotient grows by one step, and by a multiple of the divisor. */
  lemma QuotientStep(y: int, b: int)
    requires b > 1
    ensures y / b == (y - 1) / b + if y % b == 0 then 1 else 0
  {
    var e := y / b;
    assert y == b * e + y % b;
    var q := if y % b == 0 then e - 1 else e;
    assert (e - 1) * b == e * b - b;
    Quotient(y - 1, b, q);
  }

  lemma QuotientShift(x: int, k: int, b: int)
    requires b > 0
    ensures (x + k * b) / b == x / b + k
  {
    var e := x / b;
    assert x == b * e + x % b;
    assert (e + k) * b == e * b + k * b;
    Quotient(x + k * b, b, e + k);
  }

  lemma YearOfSplit(doe: nat, c: nat, g: nat, j: nat, r: nat)
    requires doe < 146097 && Split(doe, c, g, j, r)
    ensures YearOfEra(doe) == 100 * c + 4 * g + j
  {
    var t := 24 * c + g + 365 * j + r;
    var carry := if t >= 1460 then 1 else 0;
    Quotient(doe, 1460, 25 * c + g + carry);
    assert doe / 36524 - doe / 146096 == c by {
      if doe == 146096 {
        assert c == 3;
      } else {
        Quotient(doe, 36524, c);
        Quotient(doe, 146096, 0);
      }
    }
    Quotient(365 * (100 * c + 4 * g + j) + r - carry, 365, 100 * c + 4 * g + j);
  }

  lemma EraDaysOfSplit(c: nat, g: nat, j: nat)
    requires g <= 24 && j <= 3 && c <= 3
    ensures EraDays(100 * c + 4 * g + j) == 36524 * c + 1461 * g + 365 * j
    ensures EraDays(100 * c + 4 * g + j + 1) ==
            36524 * c + 1461 * g + 365 * j + 365 + (if j == 3 then 1 else 0) - if j == 3 && g == 24 then 1 else 0
  {
  }

  /** The day of the era falls in the year found, which begins on 1 March and ends with February. */
  lemma YearOfEraFits(doe: nat)
    requires doe < 146097
    ensures var yoe := YearOfEra(doe);
      && yoe <= 399
      && EraDays(yoe) <= doe <= EraDays(yoe) + 365
      && (yoe < 399 ==> doe < EraDays(yoe + 1))
  {
    var c, g, j, r := SplitExists(doe);
    YearOfSplit(doe, c, g, j, r);
    EraDaysOfSplit(c, g, j);
  }

  /** Month and day from the day of a year beginning in March; January and February belong to the next year. */
  function FromMarch(y: int, doy: nat): Date
    requires doy <= 365
  {
    var mp: nat := (5 * doy + 2) / 153;
    var d: nat := doy - (153 * mp + 2) / 5 + 1;
    var m: nat := if mp < 10 then mp + 3 else mp - 9;
    Date(if m <= 2 then y + 1 else y, m, d)
  }

  /** The date of a day of an era. */
  function FromEraDay(era: int, doe: nat): Date
    requires doe < 146097
  {
    var yoe := YearOfEra(doe);
    YearOfEraFits(doe);
    FromMarch(yoe + era * 400, doe - EraDays(yoe))
  }

  /** The conversion, before the year is narrowed. */
  function CivilFromDays(days: int): Date {
    FromEraDay(EraOf(days + 719468), DayOfEra(days + 719468))
  }

  /** Narrowing to a 32-bit signed integer. */
  function AsI32(x: int): int {
    var low := x % 0x1_0000_0000;
    if low < 0x8000_0000 then low else low - 0x1_0000_0000
  }

  function Narrowed(date: Date): Date {
    date.(y := AsI32(date.y))
  }

  /** `ymd_from_epoch_days`. */
  function YmdFromEpochDays(days: int): Date {
    Narrowed(CivilFromDays(days))
  }

  // ----- counting days independently of the conversion -----

  /** Days from 1 January of year 1 to 1 January of `y`. */
  function DaysBeforeYear(y: int): int {
    365 * (y - 1) + (y - 1) / 4 - (y - 1) / 100 + (y - 1) / 400
  }

  function DaysBeforeMonth(y: int, m: int): int
    decreases m
  {
    if m <= 1 then 0 else DaysBeforeMonth(y, m - 1) + DaysInMonth(y, m - 1)
  }

  /** Days from 1 January 1970. */
  function EpochDays(date: Date): int {
    DaysBeforeYear(date.y) + DaysBeforeMonth(date.y, date.m) + date.d - 1 - DaysBeforeYear(1970)
  }

  /** The century rules, on remainders. */
  lemma LeapRule(y: int)
    ensures (if Leap(y) then 1 else 0) ==
            (if y % 4 == 0 then 1 else 0) - (if y % 100 == 0 then 1 else 0) + (if y % 400 == 0 then 1 else 0)
  {
    if y % 400 == 0 {
      Quotient(y, 100, 4 * (y / 400));
    }
    if y % 100 == 0 {
      Quotient(y, 4, 25 * (y / 100));
    }
  }

  lemma YearStart(y: int)
    ensures DaysBeforeYear(y) == 365 * (y - 1) + y / 4 - y / 100 + y / 400 - if Leap(y) then 1 else 0
  {
    QuotientStep(y, 4);
    QuotientStep(y, 100);
    QuotientStep(y, 400);
    LeapRule(y);
  }

  /** Consecutive new-year days are a year apart. */
  lemma YearLength(y: int)
    ensures DaysBeforeYear(y + 1) == DaysBeforeYear(y) + if Leap(y) then 366 else 365
  {
    YearStart(y);
  }

  lemma MonthTable(y: int)
    ensures var f := if Leap(y) then 1 else 0;
      && DaysBeforeMonth(y, 1) == 0 && DaysBeforeMonth(y, 2) == 31
      && DaysBeforeMonth(y, 3) == 59 + f && DaysBeforeMonth(y, 4) == 90 + f && DaysBeforeMonth(y, 5) == 120 + f
      && DaysBeforeMonth(y, 6) == 151 + f && DaysBeforeMonth(y, 7) == 181 + f && DaysBeforeMonth(y, 8) == 212 + f
      && DaysBeforeMonth(y, 9) == 243 + f && DaysBeforeMonth(y, 10) == 273 + f
      && DaysBeforeMonth(y, 11) == 304 + f && DaysBeforeMonth(y, 12) == 334 + f
  {
    assert DaysBeforeMonth(y, 3) == DaysBeforeMonth(y, 2) + DaysInMonth(y, 2);
    assert DaysBeforeMonth(y, 5) == DaysBeforeMonth(y, 4) + DaysInMonth(y, 4);
    assert DaysBeforeMonth(y, 7) == DaysBeforeMonth(y, 6) + DaysInMonth(y, 6);
    assert DaysBeforeMonth(y, 9) == DaysBeforeMonth(y, 8) + DaysInMonth(y, 8);
    assert DaysBeforeMonth(y, 11) == DaysBeforeMonth(y, 10) + DaysInMonth(y, 10);
  }

  /** Days of the civil year before 1 March, and the days counted from year 0 in years beginning there. */
  lemma MarchStart(era: int, yoe: nat)
    requires yoe <= 399
    ensures
      var y := yoe + era * 400;
      DaysBeforeYear(y) + 59 + (if Leap(y) then 1 else 0) - DaysBeforeYear(1970) == era * 146097 + EraDays(yoe) - 719468
  {
    var y := yoe + era * 400;
    YearStart(y);
    QuotientShift(yoe, 100 * era, 4);
    QuotientShift(yoe, 4 * era, 100);
    QuotientShift(yoe, era, 400);
  }

  // ----- the conversion is the calendar -----

  /** A year beginning in March has 366 days only if the February it ends with is a leap February. */
  lemma LastDayIsLeap(doe: nat, era: int)
    requires doe < 146097
    ensures doe - EraDays(YearOfEra(doe)) == 365 ==> Leap(YearOfEra(doe) + era * 400 + 1)
  {
    var c, g, j, r := SplitExists(doe);
    YearOfSplit(doe, c, g, j, r);
    EraDaysOfSplit(c, g, j);
    var y := YearOfEra(doe) + era * 400 + 1;
    if r == 365 {
      Quotient(y, 4, 25 * c + g + 1 + 100 * era);
      if g < 24 {
        Quotient(y, 100, c + 4 * era);
      } else {
        Quotient(y, 400, era + 1);
      }
    }
  }

  /** Days from 1 March to the first of each month of a year beginning there. */
  function MarchTable(mp: int): int {
    if mp <= 0 then 0 else if mp == 1 then 31 else if mp == 2 then 61 else if mp == 3 then 92
    else if mp == 4 then 122 else if mp == 5 then 153 else if mp == 6 then 184 else if mp == 7 then 214
    else if mp == 8 then 245 else if mp == 9 then 275 else if mp == 10 then 306 else if mp == 11 then 337 else 366
  }

  lemma TableIs(mp: nat)
    requires mp <= 11
    ensures (153 * mp + 2) / 5 == MarchTable(mp)
  {
  }

  lemma MonthOfDay(doy: nat)
    requires doy <= 365
    ensures
      var mp := (5 * doy + 2) / 153;
      mp <= 11 && MarchTable(mp) <= doy < MarchTable(mp + 1) && (153 * mp + 2) / 5 == MarchTable(mp)
  {
    TableIs((5 * doy + 2) / 153);
  }

  lemma FromMarchIs(y: int, doy: nat) returns (mp: nat)
    requires doy <= 365
    ensures mp <= 11 && MarchTable(mp) <= doy < MarchTable(mp + 1)
    ensures FromMarch(y, doy) ==
            Date(if mp < 10 then y else y + 1, if mp < 10 then mp + 3 else mp - 9, doy - MarchTable(mp) + 1)
  {
    mp := (5 * doy + 2) / 153;
    MonthOfDay(doy);
  }

  lemma MarchDateValid(y: int, doy: nat)
    requires doy <= 365 && (doy == 365 ==> Leap(y + 1))
    ensures ValidDate(FromMarch(y, doy))
  {
    var mp := FromMarchIs(y, doy);
  }

  lemma EraDayValid(era: int, doe: nat)
    requires doe < 146097
    ensures ValidDate(FromEraDay(era, doe))
  {
    YearOfEraFits(doe);
    LastDayIsLeap(doe, era);
    MarchDateValid(YearOfEra(doe) + era * 400, doe - EraDays(YearOfEra(doe)));
  }

  /** Every day count yields a date of the calendar. */
  lemma CivilIsValid(days: int)
    ensures ValidDate(CivilFromDays(days))
  {
    EraDayValid(EraOf(days + 719468), DayOfEra(days + 719468));
  }

  /** Days of the civil calendar up to the first of a month counted from March. */
  lemma MarchMonths(y: int, mp: nat)
    requires mp <= 11
    ensures
      var first := Date(if mp < 10 then y else y + 1, if mp < 10 then mp + 3 else mp - 9, 1);
      EpochDays(first) == EpochDays(Date(y, 3, 1)) + MarchTable(mp)
  {
    MonthTable(y);
    MonthTable(y + 1);
    YearLength(y);
  }

  lemma FirstOfMarch(era: int, yoe: nat)
    requires yoe <= 399
    ensures EpochDays(Date(yoe + era * 400, 3, 1)) == era * 146097 + EraDays(yoe) - 719468
  {
    MarchStart(era, yoe);
    MonthTable(yoe + era * 400);
  }

  lemma DayInMonth(date: Date)
    ensures EpochDays(date) == EpochDays(Date(date.y, date.m, 1)) + date.d - 1
  {
  }

  lemma MarchDayCounts(era: int, yoe: nat, doy: nat)
    requires yoe <= 399 && doy <= 365
    ensures EpochDays(FromMarch(yoe + era * 400, doy)) == era * 146097 + EraDays(yoe) + doy - 719468
  {
    var y := yoe + era * 400;
    var mp := FromMarchIs(y, doy);
    DayInMonth(FromMarch(y, doy));
    MarchMonths(y, mp);
    FirstOfMarch(era, yoe);
  }

  lemma EraDayCounts(era: int, doe: nat)
    requires doe < 146097
    ensures EpochDays(FromEraDay(era, doe)) == era * 146097 + doe - 719468
  {
    YearOfEraFits(doe);
    MarchDayCounts(era, YearOfEra(doe), doe - EraDays(YearOfEra(doe)));
  }

  /** Counting the days up to the date found gives the day count back. */
  lemma DaysRoundTrip(days: int)
    ensures EpochDays(CivilFromDays(days)) == days
  {
    EraDayCounts(EraOf(days + 719468), DayOfEra(days + 719468));
  }

  // ----- the day count determines the date -----

  lemma {:induction false} MonthsAddUp(y: int, m: int, k: int)
    requires 1 <= m < k <= 13
    ensures DaysBeforeMonth(y, m) + DaysInMonth(y, m) <= DaysBeforeMonth(y, k)
    decreases k
  {
    if k > m + 1 {
      MonthsAddUp(y, m, k - 1);
    }
  }

  lemma {:induction false} YearsAddUp(y: int, z: int)
    requires y < z
    ensures DaysBeforeYear(y) + 365 + (if Leap(y) then 1 else 0) <= DaysBeforeYear(z)
    decreases z - y
  {
    YearLength(z - 1);
    if y < z - 1 {
      YearsAddUp(y, z - 1);
    }
  }

  lemma EpochDaysInYear(date: Date)
    requires ValidDate(date)
    ensures 0 <= EpochDays(date) + DaysBeforeYear(1970) - DaysBeforeYear(date.y) < 365 + if Leap(date.y) then 1 else 0
  {
    MonthTable(date.y);
  }

  /** Later dates count more days. */
  lemma EpochDaysMonotone(a: Date, b: Date)
    requires ValidDate(a) && ValidDate(b) && Earlier(a, b)
    ensures EpochDays(a) < EpochDays(b)
  {
    if a.y < b.y {
      EpochDaysInYear(a);
      EpochDaysInYear(b);
      YearsAddUp(a.y, b.y);
    } else if a.m < b.m {
      MonthsAddUp(a.y, a.m, b.m);
    }
  }

  /** Every date of the calendar is found again from its day count. */
  lemma DateRoundTrip(date: Date)
    requires ValidDate(date)
    ensures CivilFromDays(EpochDays(date)) == date
  {
    var found := CivilFromDays(EpochDays(date));
    CivilIsValid(EpochDays(date));
    DaysRoundTrip(EpochDays(date));
    if Earlier(found, date) {
      EpochDaysMonotone(found, date);
    } else if Earlier(date, found) {
      EpochDaysMonotone(date, found);
    }
  }

  lemma NextDayCounts(date: Date)
    requires ValidDate(date)
    ensures ValidDate(NextDay(date)) && EpochDays(NextDay(date)) == EpochDays(date) + 1
  {
    MonthTable(date.y);
    MonthTable(date.y + 1);
    YearLength(date.y);
  }

  /** Day 0 is 1 January 1970. */
  lemma EpochIs1970()
    ensures CivilFromDays(0) == Date(1970, 1, 1)
  {
    DateRoundTrip(Date(1970, 1, 1));
  }

  /** The next day count is always the next day of the calendar. */
  lemma ConversionFollowsCalendar(days: int)
    ensures CivilFromDays(days + 1) == NextDay(CivilFromDays(days))
  {
    var date := CivilFromDays(days);
    CivilIsValid(days);
    DaysRoundTrip(days);
    NextDayCounts(date);
    DateRoundTrip(NextDay(date));
  }

  /** Dates come in the order of their day counts. */
  lemma ConversionMonotone(a: int, b: int)
    requires a < b
    ensures Earlier(CivilFromDays(a), CivilFromDays(b))
  {
    CivilIsValid(a);
    CivilIsValid(b);
    DaysRoundTrip(a);
    DaysRoundTrip(b);
    var x, y := CivilFromDays(a), CivilFromDays(b);
    if Earlier(y, x) {
      EpochDaysMonotone(y, x);
    }
  }

  /** Narrowing keeps a date just when its year fits 32 bits. */
  lemma NarrowingExact(date: Date)
    ensures Narrowed(date) == date <==> -0x8000_0000 <= date.y < 0x8000_0000
  {
    NarrowingRange(date.y);
  }

  lemma NarrowingRange(x: int)
    ensures AsI32(x) == x <==> -0x8000_0000 <= x < 0x8000_0000
  {
  }
}
