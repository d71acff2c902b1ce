/** The sketch's proleptic Gregorian calendar arithmetic, as the C++ code computes it. */
module Calendar {
  import opened Base

  datatype Date = Date(year: int, month: int, day: int)

  /** C++ division of a signed integer: rounds toward zero. */
  function TruncDiv(a: int, b: int): int
    requires b > 0
  {
    if a >= 0 then a / b else -((-a) / b)
  }

  /** The value a 64-bit integer takes when it is cast to a 32-bit `int`. */
  function ToInt32(x: int): int {
    (x + I32_HALF) % U32 - I32_HALF
  }

  function DaysFromCivil(y: int, m: int, d: int): int {
    var y1 := if m <= 2 then y - 1 else y;
    var era := TruncDiv(if y1 >= 0 then y1 else y1 - 399, 400);
    var yoe := y1 - era * 400;
    var shifted := (m + (if m > 2 then U32 - 3 else 9)) % U32;
    var doy := (153 * shifted + 2) / 5 + d - 1;
    var doe := yoe * 365 + yoe / 4 - yoe / 100 + doy;
    era * 146097 + doe - 719468
  }

  // The steps of civilFromDays: the year of a 400-year era, the days before that year, and the date.

  function YearOfEra(doe: int): int {
    (doe - doe / 1460 + doe / 36524 - doe / 146096) / 365
  }

  function DayOfEra(yoe: int, doy: int): int {
    yoe * 365 + yoe / 4 - yoe / 100 + doy
  }

  function DateOf(e: int, yoe: int, doy: int): Date {
    var mp := (5 * doy + 2) / 153;
    var month := if mp < 10 then mp + 3 else mp - 9;
    Date(yoe + e * 400 + (if month <= 2 then 1 else 0), month, doy - (153 * mp + 2) / 5 + 1)
  }

  /** The date before the year is narrowed to `int`. */
  function WideCivilFromDays(days: int): Date {
    var z := days + 719468;
    var era := TruncDiv(if z >= 0 then z else z - 146096, 146097);
    var doe := z - era * 146097;
    var yoe := YearOfEra(doe);
    DateOf(era, yoe, doe - DayOfEra(yoe, 0))
  }

  function CivilFromDays(days: int): Date {
    var wide := WideCivilFromDays(days);
    wide.(year := ToInt32(wide.year))
  }

  // ---- The calendar itself, stated without any of the arithmetic above ----

  predicate IsLeap(y: int) {
    y % 4 == 0 && (y % 100 != 0 || y % 400 == 0)
  }

  function DaysInMonth(y: int, m: int): int {
    if m == 2 then (if IsLeap(y) then 29 else 28)
    else if m == 4 || m == 6 || m == 9 || m == 11 then 30 else 31
  }

  predicate ValidDate(date: Date) {
    1 <= date.month <= 12 && 1 <= date.day <= DaysInMonth(date.year, date.month)
  }

  function NextDate(date: Date): Date {
    if date.day < DaysInMonth(date.year, date.month) then date.(day := date.day + 1)
    else if date.month < 12 then Date(date.year, date.month + 1, 1)
    else Date(date.year + 1, 1, 1)
  }

  function DayNumber(date: Date): int {
    DaysFromCivil(date.year, date.month, date.day)
  }

  /** The sketch's way of dividing a possibly negative number is the floor. */
  lemma FloorEra(y: int, e: int, r: int)
    requires y == 400 * e + r && 0 <= r < 400
    ensures TruncDiv(if y >= 0 then y else y - 399, 400) == e
  {
    if y < 0 {
      assert -(y - 399) == 400 * (-e) + (399 - r);
    }
  }

  lemma FloorDayEra(z: int, e: int, r: int)
    requires z == 146097 * e + r && 0 <= r < 146097
    ensures TruncDiv(if z >= 0 then z else z - 146096, 146097) == e
  {
    if z < 0 {
      assert -(z - 146096) == 146097 * (-e) + (146096 - r);
    }
  }

  /** The day of a March-based year, and the length of that year. */
  predicate InMarchYear(yoe: int, doy: int) {
    0 <= yoe < 400 && 0 <= doy && doy < 365 + (if IsLeap(yoe + 1) then 1 else 0)
  }

  /** The year of an era split into its century, its four-year group and its remainder. */
  predicate SplitYear(yoe: int, c: int, q: int, r: int) {
    0 <= c < 4 && 0 <= q < 25 && 0 <= r < 4 && yoe == 100 * c + 4 * q + r
  }

  lemma SplitDayOfEra(yoe: int, doy: int, c: int, q: int, r: int)
    requires SplitYear(yoe, c, q, r) && InMarchYear(yoe, doy)
    ensures DayOfEra(yoe, doy) == 36524 * c + 1461 * q + 365 * r + doy
    ensures doy <= 364 || (doy == 365 && r == 3 && (q < 24 || c == 3))
  {
    SplitDivisions(yoe, c, q, r);
    SplitLeap(yoe, c, q, r);
  }

  lemma SplitDivisions(yoe: int, c: int, q: int, r: int)
    requires SplitYear(yoe, c, q, r)
    ensures yoe / 100 == c && yoe / 4 == 25 * c + q
  {
  }

  lemma SplitLeap(yoe: int, c: int, q: int, r: int)
    requires SplitYear(yoe, c, q, r)
    ensures IsLeap(yoe + 1) <==> r == 3 && (q < 24 || c == 3)
  {
    ModFour(yoe + 1, r + 1, 25 * c + q);
    ModHundred(yoe + 1, 4 * q + r + 1, c);
  }

  lemma ModFour(a: int, b: int, q: int)
    requires a == 4 * q + b
    ensures a % 4 == b % 4
  {
  }

  lemma ModHundred(a: int, b: int, q: int)
    requires a == 100 * q + b
    ensures a % 100 == b % 100
  {
  }

  lemma ModFourHundred(a: int, b: int, q: int)
    requires a == 400 * q + b
    ensures a % 400 == b % 400
  {
  }

  lemma YearOfEraInverts(yoe: int, doy: int)
    requires InMarchYear(yoe, doy)
    ensures 0 <= DayOfEra(yoe, doy) < 146097
    ensures YearOfEra(DayOfEra(yoe, doy)) == yoe
  {
    var c, q, r := yoe / 100, yoe % 100 / 4, yoe % 4;
    assert yoe % 100 % 4 == r;
    SplitDayOfEra(yoe, doy, c, q, r);
    var doe := DayOfEra(yoe, doy);
    var carry := if 24 * c + q + 365 * r + doy >= 1460 then 1 else 0;
    assert doe == 1460 * (25 * c + q) + (24 * c + q + 365 * r + doy);
    assert doe / 1460 == 25 * c + q + carry;
    if doe == 146096 {
      assert c == 3 && q == 24 && r == 3 && doy == 365;
    } else {
      assert doe / 36524 == c;
      assert doe / 146096 == 0;
    }
  }

  /** The century of a day of an era; only the last one has a day more. */
  lemma CenturyOfDay(doe: int) returns (c: int, x: int)
    requires 0 <= doe < 146097
    ensures 0 <= c < 4 && doe == 36524 * c + x && 0 <= x <= 36524 && (x == 36524 ==> c == 3)
  {
    c := if doe == 146096 then 3 else doe / 36524;
    x := doe - 36524 * c;
  }

  /** The four-year group of a day of a century; the last one has its leap day only in the last century. */
  lemma GroupOfDay(x: int) returns (q: int, w: int)
    requires 0 <= x <= 36524
    ensures 0 <= q < 25 && x == 1461 * q + w && 0 <= w <= 1460 && (q == 24 && w == 1460 ==> x == 36524)
  {
    q := if x == 36524 then 24 else x / 1461;
    w := x - 1461 * q;
  }

  lemma YearOfDay(w: int) returns (r: int, doy: int)
    requires 0 <= w <= 1460
    ensures 0 <= r < 4 && w == 365 * r + doy && 0 <= doy <= 365 && (doy == 365 ==> r == 3 && w == 1460)
  {
    r := if w == 1460 then 3 else w / 365;
    doy := w - 365 * r;
  }

  lemma SplitEra(doe: int) returns (yoe: int, doy: int)
    requires 0 <= doe < 146097
    ensures InMarchYear(yoe, doy) && DayOfEra(yoe, doy) == doe
  {
    var c, x := CenturyOfDay(doe);
    var q, w := GroupOfDay(x);
    var r;
    r, doy := YearOfDay(w);
    yoe := 100 * c + 4 * q + r;
    SplitLeap(yoe, c, q, r);
    SplitDayOfEra(yoe, doy, c, q, r);
  }

  lemma LeapPeriod(y: int, e: int, yoe: int)
    requires y == 400 * e + yoe && 0 <= yoe < 400
    ensures y / 400 == e && y % 400 == yoe
    ensures IsLeap(y + 1) == IsLeap(yoe + 1)
  {
    ModFour(y + 1, yoe + 1, 100 * e);
    ModHundred(y + 1, yoe + 1, 4 * e);
    ModFourHundred(y + 1, yoe + 1, e);
  }

  /** Months counted from March, and the days that come before each. */
  function MarchMonth(m: int): int {
    if m > 2 then m - 3 else m + 9
  }

  function DayOfMarchYear(m: int, d: int): int {
    (153 * MarchMonth(m) + 2) / 5 + d - 1
  }

  function MarchYear(date: Date): int {
    if date.month <= 2 then date.year - 1 else date.year
  }

  lemma MonthOfMarchDay(y: int, m: int, d: int)
    requires ValidDate(Date(y, m, d))
    ensures 0 <= DayOfMarchYear(m, d) < 365 + (if m == 2 && d == 29 then 1 else 0)
    ensures (5 * DayOfMarchYear(m, d) + 2) / 153 == MarchMonth(m)
  {
    if m <= 4 {
      assert m == 1 || m == 2 || m == 3 || m == 4;
    } else if m <= 8 {
      assert m == 5 || m == 6 || m == 7 || m == 8;
    } else {
      assert m == 9 || m == 10 || m == 11 || m == 12;
    }
  }

  lemma MarchDayOfMonth(doy: int)
    requires 0 <= doy <= 365
    ensures var mp := (5 * doy + 2) / 153; var day := doy - (153 * mp + 2) / 5 + 1;
            var month := if mp < 10 then mp + 3 else mp - 9;
            && 1 <= month <= 12
            && 1 <= day <= (if month == 2 then (if doy == 365 then 29 else 28) else DaysInMonth(0, month))
            && DayOfMarchYear(month, day) == doy
  {
    var mp := (5 * doy + 2) / 153;
    assert 0 <= mp <= 11;
    if mp < 4 {
      assert mp == 0 || mp == 1 || mp == 2 || mp == 3;
    } else if mp < 8 {
      assert mp == 4 || mp == 5 || mp == 6 || mp == 7;
    } else {
      assert mp == 8 || mp == 9 || mp == 10 || mp == 11;
    }
  }

  lemma DayNumberSplit(date: Date, e: int, yoe: int)
    requires 1 <= date.month <= 12 && MarchYear(date) == 400 * e + yoe && 0 <= yoe < 400
    ensures DayNumber(date) == e * 146097 + DayOfEra(yoe, DayOfMarchYear(date.month, date.day)) - 719468
  {
    FloorEra(MarchYear(date), e, yoe);
  }

  lemma DayNumberByEra(date: Date, e: int, yoe: int)
    requires ValidDate(date) && MarchYear(date) == 400 * e + yoe && 0 <= yoe < 400
    ensures InMarchYear(yoe, DayOfMarchYear(date.month, date.day))
    ensures DayNumber(date) == e * 146097 + DayOfEra(yoe, DayOfMarchYear(date.month, date.day)) - 719468
  {
    DayNumberSplit(date, e, yoe);
    MonthOfMarchDay(date.year, date.month, date.day);
    LeapPeriod(MarchYear(date), e, yoe);
  }

  lemma WideSplit(days: int, e: int, doe: int)
    requires days + 719468 == 146097 * e + doe && 0 <= doe < 146097
    ensures WideCivilFromDays(days) == DateOf(e, YearOfEra(doe), doe - DayOfEra(YearOfEra(doe), 0))
  {
    FloorDayEra(days + 719468, e, doe);
  }

  lemma WideSplitAs(days: int, e: int, yoe: int, doy: int)
    requires InMarchYear(yoe, doy) && days + 719468 == 146097 * e + DayOfEra(yoe, doy)
    ensures WideCivilFromDays(days) == DateOf(e, yoe, doy)
  {
    var doe := DayOfEra(yoe, doy);
    YearOfEraInverts(yoe, doy);
    DayOfEraIsLinear(yoe, doy);
    WideSplit(days, e, doe);
    assert doe - DayOfEra(YearOfEra(doe), 0) == doy;
  }

  lemma DateOfIsValid(e: int, yoe: int, doy: int)
    requires InMarchYear(yoe, doy)
    ensures ValidDate(DateOf(e, yoe, doy)) && MarchYear(DateOf(e, yoe, doy)) == 400 * e + yoe
    ensures DayOfMarchYear(DateOf(e, yoe, doy).month, DateOf(e, yoe, doy).day) == doy
  {
    MarchDayOfMonth(doy);
    LeapPeriod(400 * e + yoe, e, yoe);
  }

  lemma DateOfInverts(date: Date, e: int, yoe: int)
    requires ValidDate(date) && MarchYear(date) == 400 * e + yoe
    ensures DateOf(e, yoe, DayOfMarchYear(date.month, date.day)) == date
  {
    MonthOfMarchDay(date.year, date.month, date.day);
  }

  lemma DayNumberOfDateOf(e: int, yoe: int, doy: int)
    requires InMarchYear(yoe, doy)
    ensures ValidDate(DateOf(e, yoe, doy))
    ensures DayNumber(DateOf(e, yoe, doy)) == e * 146097 + DayOfEra(yoe, doy) - 719468
  {
    DateOfIsValid(e, yoe, doy);
    DayNumberSplit(DateOf(e, yoe, doy), e, yoe);
  }

  lemma SplitWide(days: int) returns (e: int, yoe: int, doy: int)
    ensures InMarchYear(yoe, doy) && WideCivilFromDays(days) == DateOf(e, yoe, doy)
    ensures days == e * 146097 + DayOfEra(yoe, doy) - 719468
  {
    e := (days + 719468) / 146097;
    yoe, doy := SplitEra((days + 719468) % 146097);
    WideSplitAs(days, e, yoe, doy);
  }

  lemma DayOfEraIsLinear(yoe: int, doy: int)
    ensures DayOfEra(yoe, doy) == DayOfEra(yoe, 0) + doy
  {
  }

  // ---- Main results ----

  /** Every day number names a real date, and that date counts back to the day number. */
  lemma DaysOfWideDate(days: int)
    ensures ValidDate(WideCivilFromDays(days))
    ensures DayNumber(WideCivilFromDays(days)) == days
  {
    var e, yoe, doy := SplitWide(days);
    DayNumberOfDateOf(e, yoe, doy);
  }

  /** Every real date survives the trip through its day number. */
  lemma WideDateOfDays(date: Date)
    requires ValidDate(date)
    ensures WideCivilFromDays(DayNumber(date)) == date
  {
    var e, yoe := MarchYear(date) / 400, MarchYear(date) % 400;
    var doy := DayOfMarchYear(date.month, date.day);
    DayNumberByEra(date, e, yoe);
    WideSplitAs(DayNumber(date), e, yoe, doy);
    DateOfInverts(date, e, yoe);
  }

  lemma NextDayIsMarchFirst(date: Date, e: int, yoe: int)
    requires ValidDate(date) && date.month == 2 && date.day == DaysInMonth(date.year, 2)
    requires MarchYear(date) == 400 * e + yoe && 0 <= yoe < 400
    ensures DayNumber(Date(date.year, 3, 1)) == DayNumber(date) + 1
  {
    var next := Date(date.year, 3, 1);
    DayNumberSplit(date, e, yoe);
    LeapPeriod(MarchYear(date), e, yoe);
    assert DayOfMarchYear(2, date.day) == 336 + date.day && DayOfMarchYear(3, 1) == 0;
    if yoe == 399 {
      DayNumberSplit(next, e + 1, 0);
    } else {
      DayNumberSplit(next, e, yoe + 1);
      YearStep(yoe);
    }
  }

  /** The calendar's own successor is the successor of day numbers. */
  lemma NextDayIsNextDate(date: Date)
    requires ValidDate(date)
    ensures ValidDate(NextDate(date))
    ensures DayNumber(NextDate(date)) == DayNumber(date) + 1
  {
    var next := NextDate(date);
    var e, yoe := MarchYear(date) / 400, MarchYear(date) % 400;
    DayNumberByEra(date, e, yoe);
    if date.month == 2 && next.month == 3 {
      NextDayIsMarchFirst(date, e, yoe);
    } else {
      DayNumberByEra(next, e, yoe);
      MonthStep(date);
    }
  }

  lemma MonthStep(date: Date)
    requires ValidDate(date) && !(date.month == 2 && date.day == DaysInMonth(date.year, 2))
    ensures DayOfMarchYear(NextDate(date).month, NextDate(date).day) == DayOfMarchYear(date.month, date.day) + 1
  {
    var m := date.month;
    if m <= 6 {
      assert m == 1 || m == 2 || m == 3 || m == 4 || m == 5 || m == 6;
    } else {
      assert m == 7 || m == 8 || m == 9 || m == 10 || m == 11 || m == 12;
    }
  }

  lemma YearStep(yoe: int)
    requires 0 <= yoe < 399
    ensures DayOfEra(yoe + 1, 0) == DayOfEra(yoe, 0) + 365 + (if IsLeap(yoe + 1) then 1 else 0)
  {
    assert (yoe + 1) % 400 != 0;
    assert (yoe + 1) / 4 == yoe / 4 + (if (yoe + 1) % 4 == 0 then 1 else 0);
    assert (yoe + 1) / 100 == yoe / 100 + (if (yoe + 1) % 100 == 0 then 1 else 0);
  }

  /** The textbook count of days before 1 March of a year. */
  function DaysBeforeMarch(y1: int): int {
    365 * y1 + y1 / 4 - y1 / 100 + y1 / 400 - 719468
  }

  lemma DaysBeforeMarchSplit(e: int, yoe: int)
    requires 0 <= yoe < 400
    ensures DaysBeforeMarch(400 * e + yoe) == e * 146097 + DayOfEra(yoe, 0) - 719468
  {
    var y1 := 400 * e + yoe;
    assert y1 / 4 == 100 * e + yoe / 4;
    assert y1 / 100 == 4 * e + yoe / 100;
    assert y1 / 400 == e;
  }

  lemma DayNumberIsTextbook(date: Date)
    requires 1 <= date.month <= 12
    ensures DayNumber(date) == DaysBeforeMarch(MarchYear(date)) + DayOfMarchYear(date.month, date.day)
  {
    var e, yoe := MarchYear(date) / 400, MarchYear(date) % 400;
    DayNumberSplit(date, e, yoe);
    DaysBeforeMarchSplit(e, yoe);
    DayOfEraIsLinear(yoe, DayOfMarchYear(date.month, date.day));
  }

  lemma DaysBeforeMarchGrows(a: int, b: int)
    requires a <= b
    ensures DaysBeforeMarch(b) >= DaysBeforeMarch(a) + 365 * (b - a) - 1
  {
    assert a / 4 <= b / 4 && a / 400 <= b / 400;
    assert b / 4 - b / 100 >= a / 4 - a / 100 - 1;
  }

  /** The years 0 to 9999 are one interval of day numbers. */
  lemma FourDigitYears(date: Date)
    requires ValidDate(date)
    ensures 0 <= date.year <= 9999 <==> -719528 <= DayNumber(date) < 2932897
  {
    DayNumberIsTextbook(date);
    MonthOfMarchDay(date.year, date.month, date.day);
    assert date.month <= 2 <==> DayOfMarchYear(date.month, date.day) >= 306;
    var y1 := MarchYear(date);
    if y1 < -1 { DaysBeforeMarchGrows(y1, -2); }
    if -1 <= y1 { DaysBeforeMarchGrows(-1, y1); }
    if 0 <= y1 { DaysBeforeMarchGrows(0, y1); }
    if y1 <= 9999 { DaysBeforeMarchGrows(y1, 9999); }
    if y1 < 9999 { DaysBeforeMarchGrows(y1, 9998); }
    if 10000 <= y1 { DaysBeforeMarchGrows(10000, y1); }
  }

  lemma LaterYear(date: Date, year: int)
    requires 1 <= date.month <= 12 && date.year + 2 <= year
    ensures DayNumber(date) < DayNumber(date.(year := year))
  {
    var later := date.(year := year);
    DayNumberIsTextbook(date);
    DayNumberIsTextbook(later);
    DaysBeforeMarchGrows(MarchYear(date), MarchYear(later));
  }

  lemma NarrowingMovesFar(x: int)
    ensures ToInt32(x) == x <==> -I32_HALF <= x < I32_HALF
    ensures ToInt32(x) == x || ToInt32(x) + 2 <= x || x + 2 <= ToInt32(x)
  {
    var q := (x + I32_HALF) / U32;
    assert x - ToInt32(x) == U32 * q;
  }

  /** Narrowing the year to 32 bits loses the date exactly when the year does not fit. */
  lemma NarrowYear(days: int)
    ensures DayNumber(CivilFromDays(days)) == days
        <==> -I32_HALF <= WideCivilFromDays(days).year < I32_HALF
  {
    DaysOfWideDate(days);
    var wide, narrow := WideCivilFromDays(days), CivilFromDays(days);
    NarrowingMovesFar(wide.year);
    if narrow.year + 2 <= wide.year { LaterYear(narrow, wide.year); }
    if wide.year + 2 <= narrow.year { LaterYear(wide, narrow.year); }
  }

  lemma EpochIsDayZero()
    ensures WideCivilFromDays(0) == Date(1970, 1, 1) && DayNumber(Date(1970, 1, 1)) == 0
  {
    DayNumberSplit(Date(1970, 1, 1), 4, 369);
    assert DayOfEra(369, DayOfMarchYear(1, 1)) == 135080;
    WideDateOfDays(Date(1970, 1, 1));
  }
}
