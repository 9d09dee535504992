/** Day counts and calendar dates, and raw timestamps split into days and time of day, in
    32-bit and 64-bit arithmetic with C's truncating division. */
module Calendar {
  import opened Common

  // ---- Machine arithmetic -------------------------------------------------------------------

  const INT32_MIN: int := -0x8000_0000
  const INT32_MAX: int := 0x7fff_ffff
  const INT64_MIN: int := -0x8000_0000_0000_0000
  const INT64_MAX: int := 0x7fff_ffff_ffff_ffff
  const TWO32: int := 0x1_0000_0000

  function TDiv(a: int, b: int): int
    requires b > 0
  {
    if a >= 0 then a / b else -((-a) / b)
  }

  function TMod(a: int, b: int): int
    requires b > 0
  {
    a - b * TDiv(a, b)
  }

  function ToInt32(x: int): int {
    var m := x % TWO32;
    if m < -INT32_MIN then m else m - TWO32
  }

  predicate FitsInt32(x: int) { INT32_MIN <= x <= INT32_MAX }

  // ---- The Gregorian calendar ------------------------------------------------------------------

  datatype Date = Date(year: int, month: nat, day: nat)

  predicate IsLeap(y: int) { y % 4 == 0 && (y % 100 != 0 || y % 400 == 0) }

  function DaysInMonth(y: int, m: nat): nat {
    if m == 2 then if IsLeap(y) then 29 else 28
    else if m == 4 || m == 6 || m == 9 || m == 11 then 30
    else 31
  }

  predicate IsDate(x: Date) { 1 <= x.month <= 12 && 1 <= x.day <= DaysInMonth(x.year, x.month) }

  function NextDay(x: Date): Date {
    if x.day < DaysInMonth(x.year, x.month) then Date(x.year, x.month, x.day + 1)
    else if x.month < 12 then Date(x.year, x.month + 1, 1)
    else Date(x.year + 1, 1, 1)
  }

  /** Days from 1 January of year 1 to 1 January of year `y`. */
  function BeforeYear(y: int): int { 365 * (y - 1) + (y - 1) / 4 - (y - 1) / 100 + (y - 1) / 400 }

  function BeforeMonth(y: int, m: nat): nat {
    if m <= 1 then 0 else BeforeMonth(y, m - 1) + DaysInMonth(y, m - 1)
  }

  /** The usual day count, zero on 1 January 1970. */
  function DayNumber(x: Date): int { BeforeYear(x.year) + BeforeMonth(x.year, x.month) + x.day - 1 - 719162 }

  lemma YearLength(y: int)
    ensures BeforeYear(y + 1) == BeforeYear(y) + (if IsLeap(y) then 366 else 365)
  {
    StepFloor(y, 4);
    StepFloor(y, 100);
    StepFloor(y, 400);
    Multiples(y);
  }

  lemma Multiples(y: int)
    ensures y % 400 == 0 ==> y % 100 == 0
    ensures y % 100 == 0 ==> y % 4 == 0
  {
    if y % 400 == 0 { DivUnique(y, 100, 4 * (y / 400), 0); }
    if y % 100 == 0 { DivUnique(y, 4, 25 * (y / 100), 0); }
  }

  lemma StepFloor(y: int, k: int)
    requires k == 4 || k == 100 || k == 400
    ensures y / k == (y - 1) / k + (if y % k == 0 then 1 else 0)
  {
  }

  lemma MonthTable(y: int)
    ensures BeforeMonth(y, 1) == 0 && BeforeMonth(y, 2) == 31
    ensures var l := if IsLeap(y) then 1 else 0;
            && BeforeMonth(y, 3) == 59 + l && BeforeMonth(y, 4) == 90 + l && BeforeMonth(y, 5) == 120 + l
            && BeforeMonth(y, 6) == 151 + l && BeforeMonth(y, 7) == 181 + l && BeforeMonth(y, 8) == 212 + l
            && BeforeMonth(y, 9) == 243 + l && BeforeMonth(y, 10) == 273 + l && BeforeMonth(y, 11) == 304 + l
            && BeforeMonth(y, 12) == 334 + l && BeforeMonth(y, 13) == 365 + l
  {
    assert BeforeMonth(y, 2) == BeforeMonth(y, 1) + 31;
    assert BeforeMonth(y, 3) == BeforeMonth(y, 2) + DaysInMonth(y, 2);
    assert BeforeMonth(y, 4) == BeforeMonth(y, 3) + 31;
    assert BeforeMonth(y, 5) == BeforeMonth(y, 4) + 30;
    assert BeforeMonth(y, 6) == BeforeMonth(y, 5) + 31;
    assert BeforeMonth(y, 7) == BeforeMonth(y, 6) + 30;
    assert BeforeMonth(y, 8) == BeforeMonth(y, 7) + 31;
    assert BeforeMonth(y, 9) == BeforeMonth(y, 8) + 31;
    assert BeforeMonth(y, 10) == BeforeMonth(y, 9) + 30;
    assert BeforeMonth(y, 11) == BeforeMonth(y, 10) + 31;
    assert BeforeMonth(y, 12) == BeforeMonth(y, 11) + 30;
    assert BeforeMonth(y, 13) == BeforeMonth(y, 12) + 31;
  }

  lemma {:induction false} MonthsGrow(y: int, m: nat, m': nat)
    requires 1 <= m < m'
    ensures BeforeMonth(y, m) + DaysInMonth(y, m) <= BeforeMonth(y, m')
  {
    if m + 1 < m' { MonthsGrow(y, m, m' - 1); }
  }

  lemma {:induction false} YearsGrow(y: int, y': int)
    requires y < y'
    ensures BeforeYear(y) + (if IsLeap(y) then 366 else 365) <= BeforeYear(y')
    decreases y' - y
  {
    YearLength(y' - 1);
    if y + 1 < y' { YearsGrow(y, y' - 1); }
  }

  predicate Before(a: Date, b: Date) {
    a.year < b.year || (a.year == b.year && (a.month < b.month || (a.month == b.month && a.day < b.day)))
  }

  lemma DayNumberGrows(a: Date, b: Date)
    requires IsDate(a) && IsDate(b) && Before(a, b)
    ensures DayNumber(a) < DayNumber(b)
  {
    if a.year < b.year {
      YearsGrow(a.year, b.year);
      MonthTable(a.year);
      MonthsGrow(a.year, a.month, 13);
    } else if a.month < b.month {
      MonthsGrow(a.year, a.month, b.month);
    }
  }

  /** Different dates have different day numbers. */
  lemma DayNumberInjective(a: Date, b: Date)
    requires IsDate(a) && IsDate(b) && DayNumber(a) == DayNumber(b)
    ensures a == b
  {
    if Before(a, b) { DayNumberGrows(a, b); }
    if Before(b, a) { DayNumberGrows(b, a); }
  }

  lemma NextDayNumber(x: Date)
    requires IsDate(x)
    ensures IsDate(NextDay(x)) && DayNumber(NextDay(x)) == DayNumber(x) + 1
  {
    if x.day < DaysInMonth(x.year, x.month) {
    } else if x.month < 12 {
    } else {
      MonthTable(x.year);
      YearLength(x.year);
    }
  }

  // ---- From a day count to a date -----------------------------------------------------------------

  /** The day counts on which the shift by 719468 stays within 32 bits. */
  predicate InDomain(days: int) { INT32_MIN <= days <= INT32_MAX - 719468 }

  function CivilFromDays(days: int): Date
    requires InDomain(days)
  {
    var z := days + 719468;
    var era := TDiv(if z >= 0 then z else z - 146096, 146097);
    EraIsFloor(z);
    DateOfEra(z - era * 146097, era)
  }

  function DateOfEra(doe: int, era: int): Date
    requires 0 <= doe < 146097
  {
    var yoe := YearOfEra(doe);
    var doy := doe - (365 * yoe + yoe / 4 - yoe / 100);
    var mp := (5 * doy + 2) / 153;
    var d := doy - (153 * mp + 2) / 5 + 1;
    var m := (mp + if mp < 10 then 3 else TWO32 - 9) % TWO32;
    var y := yoe + era * 400 + if m <= 2 then 1 else 0;
    DateInRange(doe);
    Date(y, m, d)
  }

  function YearOfEra(doe: int): int { (doe - doe / 1460 + doe / 36524 - doe / 146096) / 365 }

  lemma EraIsFloor(z: int)
    ensures TDiv(if z >= 0 then z else z - 146096, 146097) == z / 146097
    ensures 0 <= z - (z / 146097) * 146097 < 146097
  {
    if z < 0 {
      var k := z / 146097;
      var n := 146096 - z;
      assert z == 146097 * k + z % 146097;
      assert n == 146097 * (-k) + (146096 - z % 146097);
      DivUnique(n, 146097, -k, 146096 - z % 146097);
    }
  }

  /** A day of the era as century, four-year cycle, year in it and day of the year, the
      years starting on 1 March. */
  predicate Parts(doe: int, c: int, k: int, r: int, doy: int) {
    && 0 <= c <= 3 && 0 <= k <= 24 && 0 <= r <= 3 && 0 <= doy <= 365
    && doe == 36524 * c + 1461 * k + 365 * r + doy
    && (doy == 365 ==> r == 3 && (k == 24 ==> c == 3))
  }

  lemma PartsExist(doe: int) returns (c: int, k: int, r: int, doy: int)
    requires 0 <= doe < 146097
    ensures Parts(doe, c, k, r, doy)
  {
    c := if doe / 36524 > 3 then 3 else doe / 36524;
    var rem := doe - 36524 * c;
    k := rem / 1461;
    var s := rem - 1461 * k;
    r := if s / 365 > 3 then 3 else s / 365;
    doy := s - 365 * r;
  }

  /** The formula for the year of the era is right for all its 146097 days. */
  lemma YearOfEraIs(doe: int, c: int, k: int, r: int, doy: int)
    requires Parts(doe, c, k, r, doy)
    ensures YearOfEra(doe) == 100 * c + 4 * k + r
    ensures var yoe := 100 * c + 4 * k + r;
            yoe / 4 == 25 * c + k && yoe / 100 == c && doe - (365 * yoe + yoe / 4 - yoe / 100) == doy
  {
    var yoe := 100 * c + 4 * k + r;
    var t := 24 * c + k + 365 * r + doy;
    var e := if t >= 1460 then 1 else 0;
    DivUnique(doe, 1460, 25 * c + k + e, t - 1460 * e);
    var q2 := if doe == 146096 then 4 else c;
    DivUnique(doe, 36524, q2, doe - 36524 * q2);
    var q3 := if doe == 146096 then 1 else 0;
    DivUnique(doe, 146096, q3, doe - 146096 * q3);
    var n := doe - doe / 1460 + doe / 36524 - doe / 146096;
    DivUnique(n, 365, yoe, n - 365 * yoe);
    DivUnique(yoe, 4, 25 * c + k, r);
    DivUnique(yoe, 100, c, 4 * k + r);
  }

  /** Month and day from the day of a year starting on 1 March. */
  lemma MonthOfDay(doy: int, y: int)
    requires 0 <= doy <= 365 && (doy == 365 ==> IsLeap(y + 1))
    ensures var mp := (5 * doy + 2) / 153;
            var d := doy - (153 * mp + 2) / 5 + 1;
            && 0 <= mp <= 11
            && (mp < 10 ==> d >= 1 && IsDate(Date(y, mp + 3, d)) &&
                            BeforeMonth(y, mp + 3) + d - 1 == doy + BeforeMonth(y, 3))
            && (mp >= 10 ==> d >= 1 && IsDate(Date(y + 1, mp - 9, d)) &&
                             BeforeMonth(y + 1, mp - 9) + d - 1 == doy - 306)
  {
    MonthTable(y);
    MonthTable(y + 1);
  }

  lemma DateInRange(doe: int)
    requires 0 <= doe < 146097
    ensures var yoe := YearOfEra(doe);
            var doy := doe - (365 * yoe + yoe / 4 - yoe / 100);
            var mp := (5 * doy + 2) / 153;
            && 0 <= mp <= 11 && doy - (153 * mp + 2) / 5 + 1 >= 1
  {
    var c, k, r, doy := PartsExist(doe);
    YearOfEraIs(doe, c, k, r, doy);
    if doy == 365 {
      MonthOfDay(doy, 399);
    } else {
      MonthOfDay(doy, 0);
    }
  }

  /** Day `doy` of the year starting in March of year `y`. */
  function MarchDate(y: int, doy: int): Date
    requires 0 <= doy <= 365
  {
    var mp := (5 * doy + 2) / 153;
    var d := doy - (153 * mp + 2) / 5 + 1;
    MarchDay(doy);
    if mp < 10 then Date(y, mp + 3, d) else Date(y + 1, mp - 9, d)
  }

  lemma MarchDay(doy: int)
    requires 0 <= doy <= 365
    ensures 0 <= (5 * doy + 2) / 153 <= 11 && doy - (153 * ((5 * doy + 2) / 153) + 2) / 5 + 1 >= 1
  {
  }

  lemma CivilIsEraDate(days: int)
    requires InDomain(days)
    ensures var z := days + 719468;
            && 0 <= z - (z / 146097) * 146097 < 146097
            && CivilFromDays(days) == DateOfEra(z - (z / 146097) * 146097, z / 146097)
  {
    hide DateOfEra, TDiv;
    EraIsFloor(days + 719468);
  }

  lemma EraDateIsMarchDate(doe: int, era: int, c: int, k: int, r: int, doy: int)
    requires Parts(doe, c, k, r, doy)
    ensures 0 <= doe < 146097 && DateOfEra(doe, era) == MarchDate(100 * c + 4 * k + r + era * 400, doy)
  {
    YearOfEraIs(doe, c, k, r, doy);
    hide YearOfEra;
    MarchDay(doy);
    var mp := (5 * doy + 2) / 153;
    MonthWraps(mp);
  }

  lemma MonthWraps(mp: int)
    requires 0 <= mp <= 11
    ensures (mp + if mp < 10 then 3 else TWO32 - 9) % TWO32 == if mp < 10 then mp + 3 else mp - 9
  {
  }

  lemma MarchDateNumber(y: int, doy: int)
    requires 0 <= doy <= 365 && (doy == 365 ==> IsLeap(y + 1))
    ensures IsDate(MarchDate(y, doy)) && DayNumber(MarchDate(y, doy)) == BeforeYear(y + 1) + doy - 306 - 719162
  {
    MonthOfDay(doy, y);
    MonthTable(y);
    YearLength(y);
    hide BeforeMonth, BeforeYear, IsLeap;
  }

  /** The date of a day count is a date, and its day number is the count. */
  lemma CivilIsDate(days: int)
    requires InDomain(days)
    ensures IsDate(CivilFromDays(days)) && DayNumber(CivilFromDays(days)) == days
  {
    hide IsLeap, BeforeYear, CivilFromDays, DateOfEra, MarchDate, DayNumber, IsDate;
    var z := days + 719468;
    EraIsFloor(z);
    var era := z / 146097;
    var doe := z - era * 146097;
    var c, k, r, doy := PartsExist(doe);
    var y := 100 * c + 4 * k + r + era * 400;
    CivilIsEraDate(days);
    EraDateIsMarchDate(doe, era, c, k, r, doy);
    if doy == 365 { LeapInEra(era, c, k, r); }
    MarchDateNumber(y, doy);
    LeapsBefore(era, c, k, r);
  }

  /** The year after an era's year is leap when that year has the leap day. */
  lemma LeapInEra(era: int, c: int, k: int, r: int)
    requires 0 <= c <= 3 && 0 <= k <= 24 && r == 3 && (k == 24 ==> c == 3)
    ensures IsLeap(100 * c + 4 * k + r + era * 400 + 1)
  {
    var y := 100 * c + 4 * k + r + era * 400 + 1;
    assert y == 4 * (25 * c + k + 1 + 100 * era);
    if k == 24 {
      assert y == 400 * (era + 1);
    } else {
      DivUnique(y, 100, c + 4 * era, 4 * k + 4);
    }
  }

  /** The leap days before an era's year. */
  lemma LeapsBefore(era: int, c: int, k: int, r: int)
    requires 0 <= c <= 3 && 0 <= k <= 24 && 0 <= r <= 3
    ensures var y := 100 * c + 4 * k + r + era * 400;
            BeforeYear(y + 1) == 365 * y + 97 * era + 25 * c + k - c
  {
    var y := 100 * c + 4 * k + r + era * 400;
    DivUnique(y, 4, 25 * c + k + 100 * era, r);
    DivUnique(y, 100, c + 4 * era, 4 * k + r);
    DivUnique(y, 400, era, 100 * c + 4 * k + r);
  }

  /** The two are inverse to each other: every date in range comes back from its day
      number. */
  lemma DateRoundTrip(x: Date)
    requires IsDate(x) && InDomain(DayNumber(x))
    ensures CivilFromDays(DayNumber(x)) == x
  {
    CivilIsDate(DayNumber(x));
    DayNumberInjective(CivilFromDays(DayNumber(x)), x);
  }

  /** The dates count up from 1 January 1970, one calendar day at a time, in both
      directions. */
  lemma CivilCounts(days: int)
    requires InDomain(days) && InDomain(days + 1)
    ensures CivilFromDays(0) == Date(1970, 1, 1)
    ensures CivilFromDays(days + 1) == NextDay(CivilFromDays(days))
  {
    hide CivilFromDays, DayNumber, NextDay, IsDate;
    EpochNumber();
    DateRoundTrip(Date(1970, 1, 1));
    CivilIsDate(days);
    CivilIsDate(days + 1);
    NextDayNumber(CivilFromDays(days));
    DayNumberInjective(CivilFromDays(days + 1), NextDay(CivilFromDays(days)));
  }

  lemma EpochNumber()
    ensures IsDate(Date(1970, 1, 1)) && DayNumber(Date(1970, 1, 1)) == 0
  {
    assert BeforeMonth(1970, 1) == 0;
    DivUnique(1969, 4, 492, 1);
    DivUnique(1969, 100, 19, 69);
    DivUnique(1969, 400, 4, 369);
    hide IsLeap, BeforeMonth;
  }

  // ---- Timestamps -----------------------------------------------------------------------------------

  datatype Split = Split(days: int, hours: int, minutes: int, seconds: int, fraction: int)

  /** Floor division as the code writes it. */
  function FloorAsWritten(raw: int, unit: int): int
    requires unit > 0
  {
    TDiv(if raw >= 0 then raw else raw - (unit - 1), unit)
  }

  /** A raw count of `unit` ticks per second, split. */
  function SplitTimestamp(raw: int, unit: int): Split
    requires unit > 0
  {
    var total := FloorAsWritten(raw, unit);
    var fraction := ToInt32(raw - total * unit);
    var days := ToInt32(FloorAsWritten(total, 86400));
    var inDay := ToInt32(total - days * 86400);
    Split(days, TDiv(inDay, 3600), TDiv(TMod(inDay, 3600), 60), TMod(inDay, 60), fraction)
  }

  function TotalSeconds(s: Split): int { s.days * 86400 + s.hours * 3600 + s.minutes * 60 + s.seconds }

  function Recombined(s: Split, unit: int): int { TotalSeconds(s) * unit + s.fraction }

  predicate InTheirRanges(s: Split, unit: int) {
    0 <= s.hours < 24 && 0 <= s.minutes < 60 && 0 <= s.seconds < 60 && 0 <= s.fraction < unit
  }

  predicate IsUnit(unit: int) { unit == 1 || unit == 1000 || unit == 1_000_000 || unit == 1_000_000_000 }

  /** The raw values on which the subtractions before the divisions stay within 64 bits. */
  predicate InRange(raw: int, unit: int) {
    INT64_MIN + (if unit == 1 then 86399 else unit - 1) <= raw <= INT64_MAX
  }

  lemma FloorIs(raw: int, unit: int)
    requires unit > 0
    ensures FloorAsWritten(raw, unit) == raw / unit
  {
    if raw < 0 {
      var n, k := unit - 1 - raw, raw / unit;
      assert raw == unit * k + raw % unit;
      assert n == unit * (-k) + (unit - 1 - raw % unit) by { assert unit * (-k) == -(unit * k); }
      DivUnique(n, unit, -k, unit - 1 - raw % unit);
    }
  }

  lemma ToInt32Iff(x: int)
    ensures FitsInt32(ToInt32(x)) && (ToInt32(x) == x <==> FitsInt32(x))
    ensures (x - ToInt32(x)) % TWO32 == 0
  {
  }

  /** Hours, minutes and seconds add up to the seconds in the day, whatever they are; for a
      time within a day each is in its range. */
  lemma TimeOfDay(s: int)
    ensures TDiv(s, 3600) * 3600 + TDiv(TMod(s, 3600), 60) * 60 + TMod(s, 60) == s
    ensures 0 <= s < 86400 ==> 0 <= TDiv(s, 3600) < 24 && 0 <= TDiv(TMod(s, 3600), 60) < 60 && 0 <= TMod(s, 60) < 60
  {
    if s >= 0 {
      MinutesIn(s);
    } else {
      MinutesIn(-s);
    }
  }

  lemma MinutesIn(s: int)
    requires s >= 0
    ensures (s / 3600) * 3600 + ((s - 3600 * (s / 3600)) / 60) * 60 + (s - 60 * (s / 60)) == s
  {
    var h, t := s / 3600, s - 3600 * (s / 3600);
    assert t == 60 * (t / 60) + t % 60;
    DivUnique(s, 60, 60 * h + t / 60, t % 60);
  }

  /** What the parts are. */
  lemma SplitIs(raw: int, unit: int)
    requires IsUnit(unit)
    ensures var total := raw / unit;
            var s := SplitTimestamp(raw, unit);
            && s.days == ToInt32(total / 86400)
            && s.hours * 3600 + s.minutes * 60 + s.seconds == ToInt32(total - s.days * 86400)
            && s.fraction == raw - total * unit
  {
    var total := raw / unit;
    FloorIs(raw, unit);
    FloorIs(total, 86400);
    assert 0 <= raw - total * unit < unit;
    ToInt32Iff(raw - total * unit);
    TimeOfDay(ToInt32(total - ToInt32(total / 86400) * 86400));
    hide ToInt32, TDiv, TMod;
  }

  /** The time of day is one, and the fraction is below a second, whenever the day count fits
      32 bits; together with their sum this determines the parts. */
  lemma PartsInRange(raw: int, unit: int)
    requires IsUnit(unit) && FitsInt32(raw / unit / 86400)
    ensures var s := SplitTimestamp(raw, unit);
            s.days == raw / unit / 86400 && InTheirRanges(s, unit)
  {
    hide SplitTimestamp, ToInt32, TDiv, TMod, FitsInt32;
    var total := raw / unit;
    var days, inDay := total / 86400, total - (total / 86400) * 86400;
    Remainder(raw, unit);
    Remainder(total, 86400);
    SplitIs(raw, unit);
    ToInt32Iff(days);
    SmallFits(inDay);
    ToInt32Iff(inDay);
    ClockIs(raw, unit, inDay);
    TimeOfDay(inDay);
  }

  lemma Remainder(x: int, unit: int)
    requires unit > 0
    ensures 0 <= x - (x / unit) * unit < unit
  {
    assert x == unit * (x / unit) + x % unit;
  }

  lemma SmallFits(x: int)
    requires 0 <= x < 86400
    ensures FitsInt32(x)
  {
  }

  /** The clock fields of a split, told from the seconds in the day. */
  lemma ClockIs(raw: int, unit: int, inDay: int)
    requires IsUnit(unit) && inDay == ToInt32(raw / unit - SplitTimestamp(raw, unit).days * 86400)
    ensures var s := SplitTimestamp(raw, unit);
            s.hours == TDiv(inDay, 3600) && s.minutes == TDiv(TMod(inDay, 3600), 60) && s.seconds == TMod(inDay, 60)
  {
    FloorIs(raw, unit);
    FloorIs(raw / unit, 86400);
    hide ToInt32, TDiv, TMod, FloorAsWritten;
  }

  /** Parts in their ranges are determined by their sum. */
  lemma PartsDetermined(a: Split, b: Split, unit: int)
    requires InTheirRanges(a, unit) && InTheirRanges(b, unit) && Recombined(a, unit) == Recombined(b, unit)
    ensures a == b
  {
    hide TotalSeconds;
    SameQuotient(TotalSeconds(a), a.fraction, TotalSeconds(b), b.fraction, unit);
    SameClock(a, b, unit);
  }

  lemma SameClock(a: Split, b: Split, unit: int)
    requires InTheirRanges(a, unit) && InTheirRanges(b, unit) && TotalSeconds(a) == TotalSeconds(b)
    ensures a.days == b.days && a.hours == b.hours && a.minutes == b.minutes && a.seconds == b.seconds
  {
  }

  lemma SameQuotient(p: int, r: int, q: int, s: int, unit: int)
    requires 0 <= r < unit && 0 <= s < unit && p * unit + r == q * unit + s
    ensures p == q && r == s
  {
    DivUnique(p * unit + r, unit, p, r);
    DivUnique(p * unit + r, unit, q, s);
  }

  lemma SumIsRawIff(raw: int, unit: int, total: int, d: int, t: int)
    requires unit > 0
    ensures (d * 86400 + t) * unit + (raw - total * unit) == raw <==> t == total - d * 86400
  {
    var x := d * 86400 + t;
    assert x * unit - total * unit == (x - total) * unit;
    if x > total { MulGrows(unit, x - total); }
    if x < total { MulGrows(unit, total - x); assert (x - total) * unit == -((total - x) * unit); }
  }

  /** The parts add up to the raw value exactly when the day count fits 32 bits. */
  lemma SplitRecombinesIff(raw: int, unit: int)
    requires IsUnit(unit) && InRange(raw, unit)
    ensures Recombined(SplitTimestamp(raw, unit), unit) == raw <==> FitsInt32(raw / unit / 86400)
    ensures FitsInt32(raw / unit / 86400) ==> InTheirRanges(SplitTimestamp(raw, unit), unit)
  {
    if FitsInt32(raw / unit / 86400) { PartsInRange(raw, unit); }
    RecombinesIff(raw, unit);
    hide *;
  }

  lemma RecombinesIff(raw: int, unit: int)
    requires IsUnit(unit) && InRange(raw, unit)
    ensures Recombined(SplitTimestamp(raw, unit), unit) == raw <==> FitsInt32(raw / unit / 86400)
  {
    var total := raw / unit;
    var days := total / 86400;
    SplitIs(raw, unit);
    var s := SplitTimestamp(raw, unit);
    var t := s.hours * 3600 + s.minutes * 60 + s.seconds;
    SumIsRawIff(raw, unit, total, s.days, t);
    ToInt32Iff(total - s.days * 86400);
    assert total == 86400 * days + total % 86400;
    WrappedDays(days, total % 86400);
    hide SplitTimestamp, ToInt32, FitsInt32, IsUnit, InRange;
    assert TotalSeconds(s) == s.days * 86400 + t;
  }

  /** When the day count wraps, what is left of the seconds does not fit 32 bits. */
  lemma WrappedDays(days: int, second: int)
    requires 0 <= second < 86400
    ensures FitsInt32(86400 * days + second - ToInt32(days) * 86400) <==> FitsInt32(days)
  {
    ToInt32Iff(days);
    var k := (days - ToInt32(days)) / TWO32;
    assert days - ToInt32(days) == TWO32 * k;
  }

  /** For microseconds and nanoseconds the day count always fits, so the parts always add
      up, the time is a time of day and the date is defined. */
  lemma FineUnitsAlwaysRecombine(raw: int, unit: int)
    requires (unit == 1_000_000 || unit == 1_000_000_000) && InRange(raw, unit)
    ensures var s := SplitTimestamp(raw, unit);
            Recombined(s, unit) == raw && InDomain(s.days) && InTheirRanges(s, unit)
  {
    var days := raw / unit / 86400;
    assert -110_000_000 <= days <= 110_000_000;
    SplitRecombinesIff(raw, unit);
    PartsInRange(raw, unit);
    FloorIs(raw, unit);
    FloorIs(raw / unit, 86400);
    ToInt32Iff(days);
  }
}
